# Qlick quiz core in Dafny

Qlick is a small Flask app. It turns pasted study material into a multiple-choice quiz and then scores the learner's answers. This project models three parts of that app, all from `Qlick/app.py`:

- **`_to_json`**: the lenient decoder for the model's reply. It tries three inputs in turn:
  1. the raw reply;
  2. the span from the first `{` to the last `}`;
  3. the reply with every `'` replaced by `"`.
  If none of them decodes, it gives `{}`.
- **`generate_mcqs`**, which does the following:
  - clamps the requested count to 1..10;
  - sanitizes the decoded candidates. It keeps a candidate only if its stripped `question` text is non-empty and `choices` is a list of exactly four items. A kept question has its choices converted with `str()` and its `answer_index` coerced with `int()` and clamped to 0..3;
  - pads the result with numbered "Dummy Question" entries;
  - falls back to numbered "Sample Question" entries when there is no backend or when anything raises.
- **`submit`**: the scoring loop and the rounded percentage.

Module layout:

- `Wrappers` (`wrappers.dfy`): the `Option` type
- `PyText` (`pytext.dfy`): the Python text builtins the core relies on: `str.isspace`, `str.strip`, `str(int)`, and `int(str)` with its sign, underscore and whitespace rules
- `Json` (`json.dfy`): decoded JSON values, `dict.get`, truthiness, `str()` and `repr()` of values, and `int()` of a value
- `Extract` (`extract.dfy`): `_to_json`
- `Quiz` (`quiz.dfy`): `generate_mcqs`, covering the clamp, the sanitizing loop, the padding loop and the fallback
- `Scoring` (`scoring.dfy`): the scoring loop and the percentage in `submit`

The model has two parameters for behaviour it cannot see:

- **`parse`**: a partial function from text to a decoded value, which stands for `json.loads`.
- **`Backend`**: a datatype with three cases:
  - `Unavailable` means the SDK is missing or no API key is set;
  - `CallFailed` means the completion call raised;
  - `Replied(content)` carries the message content, which may be `None`.

Three behaviours of the code are easy to miss. The model states each one as the code has it:

- **A reply that no attempt decodes gives "Dummy Question" entries, not the sample quiz.** `_to_json` turns such a reply into `{}`, which has no `questions`. The padding loop then fills the quiz with "Dummy Question N" entries. The padded list always has at least one entry, so the `if cleaned:` test at line 115 never fails. The docstring at line 50 speaks only of falling back to dummy data; the "Sample Question" list comes back only when there is no backend or when something inside the `try` raised. `Quiz.UndecodableReplyGivesDummies` states this.
- **Some malformed replies discard every question.** Any exception inside the `try` is caught at line 118, and the sample list is returned. This happens in four cases:
  - the message content is `None`, so the slice `raw[:300]` at line 88 raises `TypeError` (`Quiz.Generated`);
  - the decoded reply is not a dict (for example `[]`), so `data.get` raises;
  - one of the first `num_q` candidates is not a dict, so `q.get` raises (`Quiz.NonDictFallsBack`);
  - `questions` is truthy but not a list. A number cannot be sliced. A non-empty string is sliced into one-character strings; the first of them raises on `q.get`, which ends the loop (`Quiz.QuestionsNotAListFallBack`).
- **Rounding is Python's `round`, which rounds half to even.** `Scoring.RoundHalfEven` is that rule on exact rationals.

## Model

| member | source | states |
|---|---|---|
| `PyText.Strip` | Qlick/app.py:93 | `str.strip()` drops leading and trailing whitespace. The input is the result with all-whitespace text on either side. The result is empty exactly when the input is all whitespace; otherwise it starts and ends with a non-space. |
| `PyText.StripIdempotent` | Qlick/app.py:93 | Stripping twice gives the same result as stripping once. |
| `PyText.StripUnchanged` | Qlick/app.py:93 | Text without whitespace at either end is left unchanged by `strip()`. |
| `PyText.ParseInt` | Qlick/app.py:173 | `int()` of blank text raises `ValueError`, and any text it accepts holds a decimal digit. |
| `PyText.ParseIntText` | Qlick/app.py:173 | Round trip: `int(str(i)) == i` for every integer. |
| `PyText.ParseIntNeedsDigit` | Qlick/app.py:173-175 | `int()` of a text without a decimal digit fails with `ValueError`. |
| `PyText.NatText` | Qlick/app.py:110 | The decimal text used to number questions and form fields is non-empty and all digits, and has a leading `0` only for zero. |
| `PyText.IntText` | Qlick/app.py:93 | `str()` of an integer has no surrounding whitespace, so an integer `question` is never blank. |
| `Json.Get` | Qlick/app.py:92-99 | `dict.get` gives the default when the key is absent, and otherwise the value stored under the key. |
| `Json.Truthy` | Qlick/app.py:92-94 | The falsy values are exactly `None`, `False`, `0`, `0.0`, `""`, `[]` and `{}`. |
| `Json.Or` | Qlick/app.py:92-94 | `x or default` keeps a truthy `x` and otherwise gives the default. |
| `Json.ToText` | Qlick/app.py:93 | `str()` of a string is the string itself. `str()` of `None`, a bool, an int, a list or a dict is never blank after stripping. |
| `Json.Repr` | Qlick/app.py:104 | `repr()` of a non-float value has no surrounding whitespace. |
| `Json.StrRepr` | Qlick/app.py:104 | The `repr()` of a string is enclosed in matching quotes. |
| `Json.Truncate` | Qlick/app.py:99 | `int()` of a float truncates toward zero. For a non-negative float it gives the largest integer not above it. For a negative float it gives the smallest integer not below it. |
| `Json.ToInt` | Qlick/app.py:98-101 | `int()` of an int is itself, and of a bool is 0 or 1. Of a float it truncates toward zero. Of a string it is `int()` of the text. Of `None`, a list or a dict it raises. |
| `Extract.FirstIndex` | Qlick/app.py:33 | Position of the first occurrence of a character, or the length when it is absent. |
| `Extract.LastIndex` | Qlick/app.py:33 | Position of the last occurrence of a character, or -1 when it is absent. |
| `Extract.BraceSpan` | Qlick/app.py:33-34 | The greedy `\{[\s\S]*\}` search finds nothing exactly when no `{` comes before a `}`. Otherwise its match runs from the first `{` to the last `}`. |
| `Extract.ReplaceQuotes` | Qlick/app.py:40 | Every `'` becomes `"`, all other characters stay in place, and no `'` remains. |
| `Extract.Attempts` | Qlick/app.py:29-40 | The raw reply is tried first and the quote-replaced reply last. The brace span is tried in between exactly when the brace search matches. |
| `Extract.FirstDecoded` | Qlick/app.py:29-42 | The first text that decodes gives the result, and when none decodes the result is `{}`. |
| `Extract.ToJson` | Qlick/app.py:27-42 | The result is either `{}` or the decoding of one of the three attempts. When no attempt decodes, it is `{}`. |
| `Extract.ToJsonFirstDecoded` | Qlick/app.py:29-42 | `_to_json` returns the value of the first attempt that decodes: raw, then brace span, then quote-replaced. |
| `Extract.BraceSpanOfEmbedded` | Qlick/app.py:33 | An object wrapped in brace-free prose is exactly what the brace search returns. |
| `Extract.ToJsonEmbedded` | Qlick/app.py:33-36 | A reply that fails to decode, but wraps a decodable object in prose, decodes to that object. |
| `Extract.ToJsonSingleQuoted` | Qlick/app.py:39-40 | When the first two attempts fail and the quote-replaced text decodes, that is the result. |
| `Quiz.ClampCount` | Qlick/app.py:51 | `max(1, min(n, 10))` always lies in 1..10. It keeps a count already in range, raises a smaller one to 1 and lowers a larger one to 10. |
| `Quiz.ClampIndex` | Qlick/app.py:105 | `max(0, min(ai, 3))` always lies in 0..3. It keeps an index already in range and moves any other to the nearer end. |
| `Quiz.QuestionText` | Qlick/app.py:93 | The question text is blank or trimmed, and a value that is neither a string nor a float is never blank. |
| `Quiz.QuestionTextOfString` | Qlick/app.py:93-95 | A string question is blank exactly when it is all whitespace. |
| `Quiz.MissingFields` | Qlick/app.py:93-99 | A candidate without a key gets the default of `get`: a blank question, no choices (`[]`), and answer index 0. |
| `Quiz.ChoicesValue` | Qlick/app.py:94 | `or []` never changes whether `choices` is a list of four, and a non-empty list result is the stored value itself. |
| `Quiz.Accepted` | Qlick/app.py:95 | A candidate passes the test exactly when its question is not blank and the stored `choices` is a list of exactly four items. |
| `Quiz.AnswerIndex` | Qlick/app.py:98-105 | The stored answer index always lies in 0..3. It is 0 when `int()` raises, and otherwise the clamped integer `int()` gives. |
| `Quiz.AnswerIndexByKind` | Qlick/app.py:98-105 | `None`, a list, a dict, blank text and any text `int()` rejects give 0. A bool gives 0 or 1, an int is clamped, and a float is truncated toward zero and clamped. |
| `Quiz.AnswerIndexFromText` | Qlick/app.py:98-105 | An index sent as the decimal text of an integer counts as that integer, clamped. |
| `Quiz.ChoiceTexts` | Qlick/app.py:104 | `[str(c) for c in choices]` keeps the length, and string choices are kept verbatim. |
| `Quiz.Examine` | Qlick/app.py:93-105 | A non-dict candidate raises. A dict is kept exactly when its stripped question is non-empty and its choices form a list of four. A kept question is well-formed: stripped non-empty text, four choices, index 0..3. |
| `Quiz.AnswerIndexNeverRejects` | Qlick/app.py:98-101 | Whatever `answer_index` holds never decides whether a candidate is kept. |
| `Quiz.KeptIndexClamped` | Qlick/app.py:105 | An integer `answer_index` is stored clamped: above 3 becomes 3 and below 0 becomes 0. |
| `Quiz.NonTextQuestionNotBlank` | Qlick/app.py:93-95 | A `question` value that is neither a string nor a float passes the blank test after `str()`. An explicit `null` becomes the text `"None"`. |
| `Quiz.Verdicts` | Qlick/app.py:92-106 | Each candidate gets one verdict, and a candidate raises exactly when it is not a dict. |
| `Quiz.Collect` | Qlick/app.py:92-106 | The loop raises exactly when some examined candidate is not a dict. Otherwise it keeps at most one question per candidate, all well-formed. |
| `Quiz.Cleaned` | Qlick/app.py:92-106 | The sanitized list exists exactly when every candidate is a dict. It is no longer than the candidate list, and every entry is well-formed. |
| `Quiz.KeptPositions` | Qlick/app.py:92-106 | The positions of the kept candidates, strictly increasing, including every kept one. |
| `Quiz.CollectKeepsInOrder` | Qlick/app.py:92-106 | Order is preserved: the i-th cleaned question is the one built from the i-th kept candidate. |
| `Quiz.Sanitize` | Qlick/app.py:91-106 | The loop over the first `num_q` candidates computes `Cleaned` of that prefix and keeps at most `num_q` questions. |
| `Quiz.Placeholder` | Qlick/app.py:109-112 | A placeholder question is well-formed. |
| `Quiz.Dummy` | Qlick/app.py:109-113 | A "Dummy Question" is well-formed, with options A–D and answer index 0. |
| `Quiz.Sample` | Qlick/app.py:125-129 | A "Sample Question" is well-formed, with options A–D and answer index 0. |
| `Quiz.Padded` | Qlick/app.py:108-113 | Padding gives `max(len, num_q)` entries. The cleaned questions come first, unchanged, and entry j after them is "Dummy Question j+1". |
| `Quiz.Pad` | Qlick/app.py:108-113 | The `while len(cleaned) < num_q` loop computes `Padded`. |
| `Quiz.PaddedFull` | Qlick/app.py:108 | A list that already has `num_q` records gets no padding. |
| `Quiz.Fallback` | Qlick/app.py:121-132 | The fallback has exactly `num_q` entries, and entry i is "Sample Question i+1". |
| `Quiz.Candidates` | Qlick/app.py:92 | The following cases are distinguished: <ul><li>A non-dict reply raises.</li><li>A missing or falsy `questions` gives no candidates.</li><li>A list gives its items.</li><li>A string gives one candidate per character (`Quiz.StringQuestions`).</li><li>Any other truthy value raises.</li></ul> |
| `Quiz.Generated` | Qlick/app.py:49-132 | The quiz always has exactly the clamped count of entries, all well-formed. When no reply content arrives (no backend, a failed call, or `None` content), it is the sample fallback. |
| `Quiz.GenerateMcqs` | Qlick/app.py:49-132 | The imperative `generate_mcqs` computes `Generated`. |
| `Quiz.GeneratedFromReply` | Qlick/app.py:89-117 | A decodable reply whose candidates are all dicts gives the sanitized questions of the first `num_q` candidates, in order, padded with dummies. When `num_q` are already there, nothing is added. |
| `Quiz.NonDictFallsBack` | Qlick/app.py:89-132 | A non-dict among the examined candidates, caught at line 118, discards the reply and yields the sample fallback. |
| `Quiz.StringQuestions` | Qlick/app.py:92 | A string `questions` entry is sliced into its characters as one-character strings, none of them a dict. |
| `Quiz.QuestionsNotAListFallBack` | Qlick/app.py:89-132 | A `questions` entry that is truthy but not a list makes the `try` raise, so the result is the sample fallback. |
| `Quiz.UndecodableReplyGivesDummies` | Qlick/app.py:89-117 | A reply that no attempt decodes gives `num_q` "Dummy Question" entries, not the sample list. |
| `Quiz.CandidateKept` | Qlick/app.py:93-105 | The three-key dict that `Quiz.Candidate` builds, with keys `question`, `choices` and `answer_index` in that order, is kept when it has non-blank, unpadded question text, four string choices and an integer `answer_index` is kept verbatim, with the index clamped to 0..3. |
| `Quiz.SingleReply` | Qlick/app.py:89-117 | For a one-question quiz (any `num_q` up to 1), a reply `{"questions": [c]}` with `c` kept gives exactly `c`'s record. |
| `Quiz.SingleQuestionReply` | Qlick/app.py:89-117 | A reply with one valid question, for a one-question quiz (any `num_q` up to 1), gives that question alone with its answer index clamped (5 becomes 3). |
| `Scoring.Pick` | Qlick/app.py:171-175 | A missing `q_<idx>` field, or text `int()` rejects, gives -1. |
| `Scoring.ReadPick` | Qlick/app.py:171-175 | The `try`/`except` around one form field computes `Pick`. |
| `Scoring.PickReadsSubmittedIndex` | Qlick/app.py:171-175 | A field holding the decimal text of an index is read back as that index. |
| `Scoring.Matches` | Qlick/app.py:176-178 | The count of correct picks never exceeds the number of questions. |
| `Scoring.MatchesCountsCorrectPositions` | Qlick/app.py:176-178 | `correct` is the size of the set of positions whose pick equals the stored answer index. |
| `Scoring.MissedPickLosesAPoint` | Qlick/app.py:176-178 | Any missed position keeps `correct` below the number of questions. |
| `Scoring.UnansweredQuizScoresZero` | Qlick/app.py:171-178 | When every pick is -1, a quiz of well-formed questions scores 0 correct. |
| `Scoring.AllCorrectFullMarks` | Qlick/app.py:176-178 | Picking every answer index scores every question. |
| `Scoring.RoundHalfEven` | Qlick/app.py:181 | `round(n/d)` is within half of `n/d`, and a tie goes to the even neighbour. |
| `Scoring.RoundingRuleUnique` | Qlick/app.py:181 | Any integer meeting that rule is `RoundHalfEven`, so the rule fixes the result. |
| `Scoring.Percent` | Qlick/app.py:180-181 | The score is at most 100. It is 0 when nothing is correct and 100 when everything is. |
| `Scoring.Score` | Qlick/app.py:169-181 | The `submit` loop does the following: <ul><li>records `Pick` for every index;</li><li>counts `Matches`;</li><li>divides by the length, or by 1 for an empty quiz;</li><li>reports `Percent`, which is at most 100.</li></ul> |
| `Scoring.ScoreExample` | Qlick/app.py:169-181 | Against answers 0, 1, 2, the picks 0, 1, 3 score 2 correct and 67 percent. |

## Left out

- **Flask layer.** Routes, the session, templates, `flash` and `redirect` are not part of this model. The quiz stored in the session is assumed to come back as it was stored.
- **OpenAI client.** The client, the prompt text, the language-instruction table, the `source_text[:8000]` truncation and the model name are not modelled. The reply is the `Backend` parameter.
- **`json.loads`.** The decoder is the `parse` parameter; its grammar is not modelled. Decoded dicts are assumed to have distinct keys, as `json.loads` keeps one value per key. `Json.Get` takes the first matching key.
- **Logging and `print`** are not modelled.
- **`generate_mcqs` count argument.** The count is taken as an integer. `int(num_q)` on a non-numeric form value raises outside the `try`, before the clamp, and is not modelled.
- **`PyText.ParseInt`**: does not model the following:
  - non-ASCII Unicode digits, which Python's `int()` accepts;
  - the 4300-digit limit on integer/string conversion.
- **`Json.Repr`**: approximates Python's `repr` for non-printable Unicode. It escapes only C0 controls, DEL through U+00A0, and U+00AD.
- **`Json.ToText` and `Json.Repr`**: on floats they carry the decoder's own text instead of Python's shortest round-trip formatting. Their contracts exclude floats for that reason.
- **Floats.** Infinities and NaN are not modelled, so `int()` raising `OverflowError` or `ValueError` on them is absent.
- **`RecursionError`.** `str()` raising on very deeply nested values is not modelled.
- **`Scoring.Percent`**: computes `round(100 * correct / total)` on exact rationals. Python divides in binary floating point first, so the two can differ only when the float quotient lands on the other side of a .5 boundary.
- **Form fields.** A form field with several values is a single value here, the first one `request.form.get` would return.
