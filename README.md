# Personal assistant app: per-user state layer in Dafny

`main.py` is a Streamlit personal-assistant app. Users sign up and log in against `users.json`.
Each user then keeps three JSON documents next to the app: a chat history, a schedule list and
AI persona settings. This project models the deterministic layer underneath the UI:

- **Credentials** (`credentials.dfy`). `signup` and `login` over the username → password-hash
  map in `users.json`. `hash_password` is a parameter (any deterministic function).
- **Document store** (`store.dfy`, `userdata.dfy`). The working directory is a class holding
  a `map` from path to JSON value. `save_json` overwrites one path. `load_json` and
  `load_json_dict` fall back to `[]` and `{}`. The three per-user path builders are injective
  and never collide with each other or with `users.json`. Every save or delete touches only
  its own user's own file, with each path string taken to name a distinct file (see
  "## Left out").
- **Records** (`records.dfy`, `json.dfy`). Chat turns `{질문, 답변}`, schedule entries
  `{date, time, event}` and the persona `{}` or `{tone, mind, focus_areas, temperature}`. Each
  comes with a strict JSON decoder, and round trips are proved in both directions.
- **System message** (`prompt.dfy`). The prompt composition inside `call_groq_api`, as a pure
  function of the persona and the document summary.
- **`parse_schedule_time`** (`timeparsing.dfy`). The parser together with the part of
  CPython's `strptime` it relies on:
  - the regular expressions for `%H`, `%M`, `%S` and `%f`;
  - backtracking to the first match;
  - the "unconverted data remains" check;
  - the `time` constructor's range check.
- **Schedule editor** (`schedule.dfy`).
  - Row extraction: blank events are dropped, and dates and times are normalised to strings.
  - Reconciliation compares the sorted `(date, time, event)` tuples.
  - The schedule text for the AI helper uses a stable sort by `(date, time)`.
- **Session** (`session.dfy`). `st.session_state` is a class. Its methods are:
  - the start of every run;
  - the login and signup forms;
  - logout;
  - PDF summary, chat submit and chat clear;
  - schedule add, editor reconciliation and the two schedule requests;
  - persona save.

  The chat-completion service is a parameter `llm(system, user, temperature, maxTokens)`.

Supporting modules: `text.dfy` covers `str.strip`, `str.join`, decimal numerals and Python's
string order. `sorting.dfy` models `sorted()` as a stable insertion sort, with uniqueness and
stability lemmas. `clock.dfy` covers `date`/`time` values and their `strftime` renderings.
`wrappers.dfy` defines `Option`.

## Model

| member | source | states |
|---|---|---|
| Credentials.LoadUsers | main.py:23-28 | load_users returns the stored username map, and `{}` when users.json does not exist. |
| Credentials.Login | main.py:46-53 | Login succeeds iff the user is registered with `hash(password)`. An unknown user gets "존재하지 않는 사용자입니다." before any hash is compared. A known user with another hash gets "비밀번호가 틀렸습니다.". Success carries "로그인 성공!". |
| Credentials.Signup | main.py:36-43 | A taken name returns (False, "이미 존재하는 사용자입니다.") and writes nothing. A new name returns (True, "회원가입 성공! 로그인 해주세요.") and rewrites users.json as the old map plus `username ↦ hash(password)`. |
| Credentials.SignupThenLogin | main.py:36-53 | After a new user signs up, login with the same password succeeds. |
| Credentials.SignupThenWrongPassword | main.py:41-53 | After signup, any password whose hash differs is refused with the wrong-password message. |
| Credentials.SignupKeepsOthers | main.py:36-53 | A signup leaves every other user's entry and login outcome unchanged, and changes no file but users.json. |
| Credentials.SignupTwiceRefused | main.py:36-43 | After a signup the name is registered. A second signup with it, whatever the password, answers (False, "이미 존재하는 사용자입니다.") and leaves the files as the first signup left them. |
| Credentials.SignupReply | main.py:36-43 | signup succeeds iff the name is not yet in users.json. Success carries "회원가입 성공! 로그인 해주세요." and refusal carries "이미 존재하는 사용자입니다.". |
| Credentials.SignupFiles | main.py:36-43 | A refused signup leaves every file as it was. An accepted one rewrites users.json with the new entry, and the result is still a JSON object. |
| Store.PathsInjective | main.py:65-75 | Each path builder gives different users different files. |
| Store.PathKindsDisjoint | main.py:65-75 | Chat, schedule and persona paths never coincide, for any two users, and none is users.json. |
| Store.JsonStore.SaveJson | main.py:78-81 | save_json replaces the document at exactly one path. |
| Store.JsonStore.RemoveIfExists | main.py:290-292 | The chat file is deleted if it exists; nothing else changes. |
| Store.LoadAfterSave | main.py:78-95 | A load returns what the last save wrote to that path; a save leaves other paths' loads unchanged. |
| Store.LoadAfterRemove | main.py:83-95 | A missing file loads as `[]` (load_json) or `{}` (load_json_dict). |
| Json.DecodeEncodeList | main.py:78-88 | A list saved element by element loads back unchanged when each element does. |
| Json.EncodeDecodeList | main.py:78-88 | A list document that decodes is exactly the encoding of what it decodes to. |
| Records.ChatRoundTrip | main.py:282-283 | A saved chat history loads back unchanged, and only saved histories decode. |
| Records.SchedulesRoundTrip | main.py:329-334 | A saved schedule list loads back unchanged, and only saved lists decode. |
| Records.PersonaRoundTrip | main.py:505-511 | Saved persona settings (or `{}`) load back unchanged, and only those decode. |
| UserData.FreshUserIsEmpty | main.py:83-95 | A user without files reads back an empty history, no schedules and `{}` settings. |
| UserData.OwnPathOf | main.py:65-75 | Every per-user path belongs to exactly one user; users.json belongs to none. |
| UserData.SaveChat | main.py:282-283 | Saving a history keeps the store well formed and reads back as saved. The user's schedules and persona, every other user's data and users.json are unchanged. |
| UserData.SaveSchedules | main.py:329-334 | Saving schedules: the same guarantees for the schedule file. |
| UserData.SavePersona | main.py:505-511 | Saving persona settings: the same guarantees for the persona file. |
| UserData.RemoveChat | main.py:289-292 | Deleting the chat file makes the history read back as `[]` and changes nothing else. |
| UserData.SaveUsers | main.py:30-33 | Rewriting users.json changes no user's documents. |
| Prompt.SystemMessageSpelledOut | main.py:107-122 | The message is the base sentence, then " " + clause for each of tone, mind, focus and document summary whose value is non-empty, in that order. |
| Prompt.SystemMessageStartsWithBase | main.py:107-122 | Whatever the persona and summary, the message begins with the base sentence. |
| Prompt.SystemMessageBaseOnly | main.py:107-122 | With empty settings `{}` and no summary, the message is exactly the base sentence. |
| Prompt.ToneOnlyExample | main.py:107-122 | A persona with only a tone and no summary gives the base sentence, one space and the tone clause. |
| Prompt.ClausePresence | main.py:109-120 | Each clause is among the parts iff the value it quotes is non-empty. |
| Prompt.ClausesDistinct | main.py:107-120 | No clause can coincide with another or with the base sentence. |
| Prompt.JoinAssembled | main.py:107-122 | `" ".join` of a base part and four optional parts is the base followed by a space and each present part. |
| Prompt.AssembledMembership | main.py:107-120 | A distinct optional part is among the parts iff its guarding value is non-empty. |
| Text.StripEmptyIffBlank | main.py:328 | `s.strip()` is empty iff every character of `s` is white space (empty included). |
| Text.JoinIsHeadThenSeparated | main.py:122 | A join is the first part followed by each later part behind one separator. |
| Text.StrLtTrichotomy | main.py:416-421 | Python's string `<` is total. |
| Text.StrLtTransitive | main.py:416-421 | Python's string `<` is transitive. |
| Text.StrLtIrreflexive | main.py:416-421 | No string is `<` itself. |
| Text.PaddedValue | main.py:331-332 | The zero-padded numeral has the requested width and reads back as the number. |
| Clock.FormatDateReadsBack | main.py:331 | `str(date)` is "YYYY-MM-DD" and its numerals read back as year, month and day. |
| Clock.FormatDateInjective | main.py:331 | Different dates are stored as different strings. |
| Clock.FormatHourMinuteReadsBack | main.py:332 | `strftime("%H:%M")` is "HH:MM" and its numerals read back as hour and minute. |
| Sorting.InsertionSort | main.py:416-421 | `sorted()` returns a permutation of its input. |
| Sorting.InsertionSortSorted | main.py:416-421 | `sorted()` returns an ordered list. |
| Sorting.SortedUnique | main.py:416-421 | When only equal values tie, two ordered permutations of one multiset are equal. |
| Sorting.SortedEqualIffSameMultiset | main.py:416-423 | Two lists sort to the same list iff they hold the same elements. |
| Sorting.InsertionSortStable | main.py:436 | The sort keeps elements with equal keys in their input order. |
| TimeParsing.ParseScheduleTime | main.py:215-236 | A time is returned unchanged. A non-string gives None. A string gives the first format that parses it. The warning is shown iff a string fails all three formats. |
| TimeParsing.StrpTimeAccepts | main.py:227-230 | "%H:%M:%S.%f", "%H:%M:%S" and "%H:%M" each accept exactly their textual shape: 1–2-digit hour ≤ 23, minute and second ≤ 59, 1–6-digit fraction. |
| TimeParsing.FirstParseFormats | main.py:227-232 | The loop tries the formats in the fixed order and returns the first success. |
| TimeParsing.ParseWarnsIffUnrecognised | main.py:215-236 | A string draws the warning iff it has none of the three shapes. |
| TimeParsing.ParseHourMinuteText | main.py:227-232 | "H:M" parses to time(H, M, 0) with no warning, and "%H:%M:%S.%f" and "%H:%M:%S" both reject it. |
| TimeParsing.ParseHourMinuteSecondText | main.py:227-232 | "H:M:S" parses to time(H, M, S). |
| TimeParsing.ParseFractionText | main.py:227-232 | "H:M:S.F" parses to the time with F right-padded to six digits of microseconds. |
| TimeParsing.ParseLeapSecondText | main.py:227-236 | Seconds 60 and 61 pass the `%S` regex but the `time` constructor rejects them, so the result is None with a warning. |
| TimeParsing.ParseFormattedTime | main.py:215-236 | A time stored with `strftime("%H:%M")` parses back to the same hour and minute without a warning. |
| TimeParsing.FullMatchIsScan | main.py:229 | The backtracking full match equals a greedy left-to-right scan of digit runs. |
| TimeParsing.ParseFractionExample | main.py:227-232 | "14:30:45.123" parses to 14:30:45.123000. |
| TimeParsing.ParseUnrecognisedExample | main.py:233-236 | "not-a-time" gives None with a warning. |
| TimeParsing.MicrosecondsOf123 | main.py:227 | `%f` reads "123" as 123000 microseconds. |
| Schedule.ExtractEditorRows | main.py:389-414 | The loop computes the extraction of the rows in editor order. |
| Schedule.DateFieldNormalised | main.py:398-402 | A date becomes "YYYY-MM-DD" whose numerals read back as the date. A string passes through. Anything else becomes "". |
| Schedule.TimeFieldNormalised | main.py:404-408 | A time becomes zero-padded "HH:MM" reading back as hour and minute. A string passes through. Anything else becomes "". |
| Schedule.ExtractedAppend | main.py:389-414 | Extraction distributes over concatenation, so kept rows keep their order. |
| Schedule.ExtractedEntries | main.py:395-414 | Every extracted entry has a non-blank event and is the value of some row; there are never more entries than rows. |
| Schedule.ExtractedAllKept | main.py:389-414 | When no event is blank, entry i is row i's value. |
| Schedule.ExtractedPermutation | main.py:389-414 | Rows in another order give the same entries in another order. |
| Schedule.EntryLeTotalOrder | main.py:416-421 | Tuple order on (date, time, event) is total, transitive, and ties only equal tuples. |
| Schedule.ChangedIffMultisetsDiffer | main.py:416-423 | The save happens iff the edited and stored lists differ as multisets. |
| Schedule.ReconciledIsStable | main.py:389-423 | Once a row set's extraction is stored, the same rows in any order compare equal to it, so no save follows. |
| Schedule.ReorderingWritesNothing | main.py:389-423 | Reordering the editor rows never changes whether a save happens. |
| Schedule.DisplayTimeRoundTrip | main.py:364-408 | A stored "HH:MM" is shown as a time and extracted back to the same string. |
| Schedule.UneditedEditorWritesNothing | main.py:344-423 | Entries added through the form and handed back unedited, in any order, cause no save. |
| Schedule.KeyLeTotalPreorder | main.py:436 | The (date, time) key order is a total preorder. |
| Schedule.ByDateTimeIsStableSort | main.py:436 | The sorted list is ordered by (date, time) and is a permutation. Entries with the same date and time keep their stored order. |
| Schedule.BuildScheduleText | main.py:434-443 | The loop computes the text of the (date, time)-sorted entries. |
| Schedule.LinesAppend | main.py:438-443 | The text of a concatenation is the concatenation of the texts. |
| Schedule.LinesSkipBlank | main.py:438-443 | Entries with blank events contribute nothing to the text. |
| Schedule.NonBlankEvents | main.py:442-443 | Every kept entry has a non-blank event and contributes exactly `- {date} {time}: {event}\n`. |
| Session.Truncated | main.py:266 | `text[:3000]` is the prefix of length min(len, 3000). |
| Session.Session.constructor | main.py:143-149 | The first run starts logged out with every field empty. |
| Session.Session.Rerun | main.py:150-160 | A logged-in user's data is reloaded, which leaves a valid session unchanged; otherwise the data is cleared. |
| Session.Session.LoginSubmit | main.py:179-194 | The reply is login's. On success the session holds the user and their loaded data. On failure only the message changes. |
| Session.Session.SignupSubmit | main.py:202-213 | The confirmation mismatch is checked first, then empty fields; both write nothing. Otherwise the reply and files are signup's. |
| Session.Session.Logout | main.py:244-252 | Every data field and the login flag are reset; the login message is kept. |
| Session.Session.UploadDocument | main.py:261-268 | The summary is the model's reply to the fixed request, with the first 3000 characters as document. |
| Session.Session.SubmitChat | main.py:278-284 | A non-empty question appends exactly one (question, answer) turn and saves the whole history, which reads back equal. An empty one changes nothing. |
| Session.Session.ClearChat | main.py:289-293 | The history is emptied and its file deleted, so it reads back as `[]`. |
| Session.Session.AddSchedule | main.py:327-339 | A non-blank event appends exactly {str(date), "HH:MM", event} and saves. A blank one changes nothing. |
| Session.Session.ReconcileEditor | main.py:343-427 | A save happens iff there were schedules and the extracted entries differ from them as a multiset. A save stores exactly the extracted list. After it, the same rows handed back in any order cause no further save. |
| Session.Session.RequestScheduleAnalysis | main.py:434-452 | The analysis request carries the schedule text, no summary and 1024 tokens. |
| Session.Session.RequestRecommendations | main.py:434-461 | The recommendation request carries the schedule text, no summary and 512 tokens. |
| Session.Session.SavePersona | main.py:504-512 | The four keys are saved and read back. Every later request uses their system message and temperature. |

## Left out

- Streamlit rendering is left out: widgets, tabs, `st.rerun`, spinners, chat display order and the persona JSON view. `st.success`/`st.error`/`st.warning` are kept only as returned replies or flags.
- The chat-completion call (Groq) is left out. It is a parameter `llm`, taken to be a function of its four inputs.
- PDF text extraction is left out. The extracted text is a parameter of `UploadDocument`.
- SHA-256 is left out. `hash_password` is a parameter `hash`, deterministic by construction.
- JSON text encoding and file I/O are left out. Files are an in-memory map of JSON values, with no partial writes, no locking and no concurrent sessions.
- Distinct path strings are taken to name distinct files, and every save succeeds. Two cases are not modelled. One is a username that `open()` rejects or that names a missing directory, such as one containing "/" or NUL: there `save_json` raises `FileNotFoundError`/`ValueError`. The other is two usernames that collide on a case-insensitive file system, such as "Alice" and "alice", which would share files. `Store.PathsInjective`, `UserData.OwnPathOf` and the `UserData` save lemmas hold for path strings only under that assumption.
- `UserData.StoreWellFormed` assumes the app is the only writer: users.json is an object, and every per-user file decodes as the document the app writes there. Files edited by hand fall outside the model. Python reads some of them: a persona file with only some of the four keys, since every read uses `.get` with a default (main.py:111-116, 130, 477-496), or chat turns and schedule entries with extra keys, since only `질문`, `답변`, `date`, `time` and `event` are indexed (main.py:303-304, 347-361, 417-420). It fails on others with `KeyError`/`TypeError`, such as an entry missing one of those keys.
- `Session.Session.Valid` ties the session's copies to the files only for a logged-in, non-empty username. The Python code logs in an empty username only if `users.json` holds one, and the signup form refuses that.
- The editor's display preparation is left out (main.py:344-385):
  - `strptime(date, "%Y-%m-%d")`;
  - the `pd.to_datetime` coercion;
  - the `sort_values` order with `na_position`;
  - the `_original_id` column.
- Schedule.UneditedEditorWritesNothing: the date each shown row holds is taken as given. The editor accepts its rows in any order.
- NaN/NaT cells and non-string event values in the editor are left out. Events are strings or absent.
- Schedule.DateFieldNormalised: `strftime("%Y")` is taken to zero-pad the year to four digits, as `str(date)` does. glibc leaves years below 1000 unpadded.
- TimeParsing: only ASCII digits are modelled. Python's `\d` also accepts other Unicode decimal digits.
- The date and time defaults from `date.today()`/`datetime.now()` are left out. So are the form's event-field reset, the persona form's `tone_options.index` pre-selection and the slider's range.
- Sorting: Python's `sorted` (Timsort) is modelled by insertion sort. For the (date, time, event) tuples only equal tuples tie, so every correct sort gives the same list (`Sorting.SortedUnique`). For the (date, time) key, both sorts are stable.
