# Lotto record keeper — a Dafny model

The application is a single Streamlit script, `lotto_app.py`. It keeps a
user's fixed lottery number sets and checks them against the latest official
draw. Each draw it fetches goes into a history table. Under the UI there are
four pieces of logic, and this project models each one with pure functions
over immutable values:

- **Fixed-set parsing** (module `Parsing`). The text box is split into lines,
  and blank lines are dropped. Each line is split on commas, each token is
  stripped, and only the tokens that are all digits are kept, as integers.
  Python's `str.strip`, `str.split`, `str.isdigit`, `int` and `str` are
  modelled in `Text`. The filtered list comprehension pattern is `Seqs.FilterMap`.
- **Prize classification** (module `Prize`). `check_winnings` counts the
  distinct winning numbers in a set and walks the tier ladder from 1st down
  to 5th. It returns one text per qualifying set, in input order, or the single
  text `"❌ 꽝!"` when no set qualifies. The structured result is `Verdicts`.
  `CheckWinnings` renders it with the exact labels, and prints each set the
  way Python prints a list.
- **Latest-round probing** (module `Fetch`). Starting at round 1163, the
  remote lookup is asked about one round after another, counting down, until
  its answer is not `"fail"`. The six winning numbers and the bonus are then
  read from that answer. The remote lookup is an oracle `lookup: int -> Response`.
- **History append** (modules `History` and `App`). A record of the round,
  the numbers, the bonus and the joined result texts is added at the end of
  the history. `App.TriggerUpdate` is the update button: fetch, classify, append.

## Model

| member | source | states |
|---|---|---|
| `Text.Trim` | lotto_app.py:70 | `strip()` returns empty exactly when the string is whitespace only; otherwise it neither starts nor ends with whitespace |
| `Text.TrimIsInfix` | lotto_app.py:70 | for a string that is not all whitespace, everything before the `strip()` result is whitespace and so is everything after it; the characters just inside both cuts are not whitespace; the result is the contiguous middle of the string |
| `Text.TrimSurround` | lotto_app.py:70 | every string is some whitespace, then its `strip()`, then some whitespace |
| `Text.TrimIdempotent` | lotto_app.py:70 | stripping twice is the same as stripping once |
| `Text.Split` | lotto_app.py:70 | `split(c)` gives one more piece than there are occurrences of `c`, and no piece contains `c` |
| `Text.JoinSplit` | lotto_app.py:70 | joining the pieces of a split with the separator gives back the original string |
| `Text.SplitJoin` | lotto_app.py:70 | splitting a join of separator-free pieces gives back the pieces |
| `Text.SplitConcat` | lotto_app.py:70 | splitting at one separator splits the two sides independently |
| `Text.NatToString` | lotto_app.py:49 | `str(n)`, for the model's unbounded integers, is a non-empty run of digits with no leading zero |
| `Text.DigitsRoundTrip` | lotto_app.py:70 | `int(str(n)) == n` for every non-negative `n` of the model's unbounded integers |
| `Seqs.FilterMapAppend` | lotto_app.py:70 | a filtered comprehension over `a + b` is the comprehension over `a` followed by the one over `b`, so kept values keep their order |
| `Seqs.FilterMapCount` | lotto_app.py:70 | a filtered comprehension keeps exactly one value per accepted element |
| `Seqs.FilterMapMembers` | lotto_app.py:70 | every kept value comes from an accepted element, and every accepted element's value is kept |
| `Parsing.ParseToken` | lotto_app.py:70 | a token yields a value exactly when it is all digits once stripped, and that value is non-negative |
| `Parsing.ParseLineValues` | lotto_app.py:70 | a line yields one non-negative integer per comma-separated token that is digit-only after stripping |
| `Parsing.ParseLineConcat` | lotto_app.py:70 | tokens are parsed independently and keep their order within the line |
| `Parsing.ParseLineDropsToken` | lotto_app.py:70 | a non-numeric token is dropped and the rest of the line is kept, so `"foo,1,2"` parses like `"1,2"` |
| `Parsing.ParseFixedSetsCount` | lotto_app.py:70 | there are exactly as many parsed sets as non-blank lines |
| `Parsing.ParseEntriesLines` | lotto_app.py:70 | each parsed set is the parse of a non-blank line |
| `Parsing.ParseFixedSetsNonNegative` | lotto_app.py:70 | every parsed value is non-negative |
| `Parsing.ParseFixedSetsConcat` | lotto_app.py:70 | lines are parsed independently and the sets keep the line order |
| `Parsing.ParseFixedSetsDropsBlank` | lotto_app.py:70 | a whitespace-only line contributes no set, wherever it stands |
| `Parsing.ParseLineOfItems` | lotto_app.py:70 | a list of non-negative integers, printed as Python prints list items, parses back to the same list |
| `Parsing.ParseFormatRoundTrip` | lotto_app.py:69-70 | non-empty sets of non-negative integers, written one per line in the input box's default format, parse back to the same sets |
| `Prize.Classify` | lotto_app.py:45-57 | the ladder yields tier `t` exactly when the prize table admits `t` for the set's match count and bonus hit: 6 for 1st; 5 with the bonus for 2nd; 5 without it for 3rd; 4 for 4th; 3 for 5th |
| `Prize.DistinctCard` | lotto_app.py:45 | `set(xs)` has at most `len(xs)` values, and exactly that many when no value repeats |
| `Prize.MatchCountBound` | lotto_app.py:45 | the match count is at most the number of distinct winning numbers and at most the number of distinct values in the set |
| `Prize.NoTierBelowThree` | lotto_app.py:45-57 | against six winning numbers a set wins nothing exactly when it holds fewer than three of them |
| `Prize.NoOverlapNoWin` | lotto_app.py:45-57 | a set with no winning number wins nothing, bonus or not |
| `Prize.FirstPrizeIff` | lotto_app.py:45-49 | 1st prize exactly when the six winning numbers are distinct and all in the set, in any order |
| `Prize.BonusOnlyAtFive` | lotto_app.py:46-53 | the bonus number changes the tier only when exactly five numbers match |
| `Prize.OrderInsensitive` | lotto_app.py:45-46 | the tier depends only on the values: reordering or repeating numbers in the set or in the draw changes nothing |
| `Prize.MoreMatchesNoWorse` | lotto_app.py:48-57 | more matching numbers never give a worse tier |
| `Prize.TableUnambiguous` | lotto_app.py:48-57 | at most one tier applies to a match count and bonus hit, so the first-match ladder picks the only applicable tier |
| `Prize.Verdicts` | lotto_app.py:42-59 | the result is never empty; it is `[NoWin]` exactly when no set qualifies, and otherwise holds at most one win entry per set and no `NoWin` |
| `Prize.VerdictsMembers` | lotto_app.py:44-57 | each win entry is a set of the input with its tier, and every qualifying set has its entry |
| `Prize.VerdictsConcat` | lotto_app.py:43-59 | entries appear in input order: the verdicts of `a + b` are those of `a` followed by those of `b`, where `[NoWin]` stands for no entries |
| `Prize.VerdictsCount` | lotto_app.py:43-57 | when some set qualifies, the result holds exactly one entry per qualifying set |
| `Prize.Render` | lotto_app.py:49-59 | a win text is never the "no win" text: they differ in their first character |
| `Prize.CheckWinnings` | lotto_app.py:42-59 | the texts are exactly `["❌ 꽝!"]` when no set qualifies, including for an empty list of sets; otherwise there is at most one text per set |
| `Prize.RenderTierRoundTrip` | lotto_app.py:49-57 | the tier can be read back from the head of a win text, and no tier from the "no win" text |
| `Prize.RenderSetRoundTrip` | lotto_app.py:49-57 | a win text shows its set: the values printed between `" (["` and `"])"` parse back to the set, for any set of non-negative numbers |
| `Prize.RenderRoundTrip` | lotto_app.py:49-59 | every verdict can be read back from its text: "no win", or the tier together with the set |
| `Fetch.ProbeLatest` | lotto_app.py:26-33 | the round returned is the highest round at or below the seed whose answer is not "fail"; every round above it up to the seed failed; it took `seed - round + 1` lookups |
| `Fetch.LatestUnique` | lotto_app.py:26-33 | only one round can be the highest non-failing round at or below the seed |
| `Fetch.OneStepBack` | lotto_app.py:26-33 | when the seed fails and the round below it answers, that round is the one found, after two lookups |
| `Fetch.FirstMissing` | lotto_app.py:36-37 | reports no key exactly when all keys are present; otherwise reports the first absent key in reading order |
| `Fetch.ReadDraw` | lotto_app.py:29-37 | the draw is read exactly when the answer arrived and has the status key, all six number keys and the bonus key; the numbers come from `drwtNo1`..`drwtNo6` in order and the bonus from `bnusNo`; a transport failure is the network error |
| `Fetch.ReadEncodeRoundTrip` | lotto_app.py:36-37 | reading the answer for a drawn round gives that draw back |
| `Fetch.FetchLatest` | lotto_app.py:22-39 | the round found is the latest one at or below round 1163, and the outcome is what reading that round's answer gives |
| `History.MakeRecord` | lotto_app.py:84-94 | the record carries the draw's round, its six numbers and its bonus; the outcome column starts with the first result text, and is exactly that text when there is only one |
| `History.OutcomeNoWinIff` | lotto_app.py:81-93 | the stored outcome is the "no win" text exactly when none of the fixed sets qualifies against the draw |
| `History.Append` | lotto_app.py:95 | the history grows by one, every earlier record keeps its position and value, and the new record is last |
| `History.AppendTwice` | lotto_app.py:95 | records added one after another end the history in the order they were added |
| `History.RoundsNotDeduplicated` | lotto_app.py:95 | the history does not deduplicate rounds: the same draw fetched twice gives two rows |
| `App.TriggerUpdate` | lotto_app.py:75-96 | the probed round is the latest one at or below round 1163; on a fetch error the history is unchanged and the error is reported; otherwise the texts are `check_winnings` of the fixed sets against the six numbers plus the bonus, and exactly one record is appended after the unchanged history |

## Left out

- The Streamlit UI (title, headers, text area, button, success and error messages, table display) is presentation only. Only the default text of the input box is used: it fixes the line format of `Parsing.FormatFixedSets`.
- `load_data` and `save_data` (CSV through pandas, `os.path.exists`) are file I/O behind a library. The history is an in-memory sequence, so the CSV round trip is not modelled.
- The HTTP request and JSON decoding are replaced by the `lookup` oracle and the `Response` value. A transport or decoding failure is `TransportError`.
- The `try`/`except` around the update only turns an error into a UI message. `App.TriggerUpdate` returns the error as a `Failure` instead.
- Fetch.Response: the JSON fields are modelled as integers. A non-integer number field, which Python would carry along without complaint, is not represented.
- Fetch.ProbeLatest: requires some round at or below the seed whose answer is not "fail". The source loop has no lower bound and runs forever otherwise, and that non-termination is not modelled. The same precondition, with the seed fixed at `SeedRound` (1163), carries over to `Fetch.FetchLatest` and `App.TriggerUpdate`. `ProbeLatest` takes any seed, and both callers pass `SeedRound`, as the source does.
- Prize.CheckWinnings: requires a draw of at least seven numbers. The source reads `winning[6]` only while looking at a set, so with an empty list of sets and a shorter draw it still returns the "no win" text, and with a set present it raises `IndexError`. The application always passes six numbers plus the bonus. The same precondition applies to `Prize.Verdicts`.
- Parsing.ParseToken: counts only ASCII `'0'..'9'` as digits. Python's `str.isdigit` also accepts other Unicode digits, and `int` then either converts them or raises `ValueError`. `str.strip` is modelled with Python's full whitespace set. CPython's `int` and `str` also refuse integers of more than 4300 decimal digits (the default `sys.int_max_str_digits`) with `ValueError`. At line 70 that error falls outside the `try`, so the script stops there. The model converts digit strings and integers of any length, so `Parsing.ParseToken`, `Text.DigitsValue`, `Text.NatToString` and `Text.DigitsRoundTrip` do not model that limit.
- Text.DigitsRoundTrip: holds for integers of any length; in CPython, `str` of an integer over 4300 digits already raises `ValueError`.
- Text.NatToString: converts integers of any length, without CPython's 4300-digit limit.
- History.MakeRecord: requires at least six numbers. The source indexes `latest_win_numbers[0..5]`, and the fetched draw always has six.
- Draw values are not checked to be distinct or within 1..45, because the source does not check them either.
- An answer without a `returnValue` key raises `KeyError` at line 30, in the middle of the probe. The model stops the probe at that round, and `Fetch.ReadDraw` then reports `MissingField("returnValue")`. The same holds for a transport or decoding failure: `requests.get` or `response.json()` raise at lines 28-29 inside the loop, while the model stops the probe at that round with `TransportError`, which `Fetch.ReadDraw` reports as `NetworkError`. In every one of these cases the result is an error for the same round and the history is unchanged; only the point where the error is raised differs.
