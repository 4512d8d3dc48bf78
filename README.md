# Voice-bot reply extractor, modelled in Dafny

The bot sends a transcribed voice message to a remote workflow and receives a
JSON answer. This project models the two pieces of `main.py` that decide what
the bot answers in the chat:

- **The bracketed-list extractor** (`parse_langflow_response`). It finds every
  non-overlapping occurrence of the pattern `\[\{.*?\}\]` in the workflow's
  reply text. The `.` also matches newlines. It hands each occurrence to the
  literal decoder and concatenates, in order, the elements of every occurrence
  that decodes to a list. An occurrence that fails to decode is skipped.
- **The reply choice** in `voice_handler`. It looks up
  `outputs[0].outputs[0].results.message.data.text` with a guard at every
  level. Then it answers with "no text found", with the raw text echoed back,
  or with the extracted objects.

Layout:

- `values.dfy` (module `Values`): Python literal values (`Value`), decoded
  JSON (`Json`), the Python exceptions a lookup can raise (`PyError`), and
  `Outcome`, a value or a raised exception.
- `extractor.dfy` (module `Extractor`): the pattern's meaning, written
  declaratively. A match starts at a `[{`. Because `.*?` is lazy, it ends at
  the first `}]` after it. The scan picks the leftmost match and resumes at
  its end (`LazyMatch`, `MatchableAt`, `IsFindAll`). Recursive functions
  compute the scan (`FindOpen`, `FindClose`, `NextSpan`, `Spans`,
  `MatchTexts`). The search and the loop in `parse_langflow_response` are
  modelled as index-by-index methods (`FindNext`, `FindAll`,
  `ParseLangflowResponse`), each proved equal to those functions.
- `handler.dfy` (module `Handler`): Python's `in`, indexing, `.get` and
  truthiness on decoded JSON. It also holds the guarded lookup, one function
  per level (`ResponseText` down to `MessageText`), the reply choice given the
  lookup's outcome (`ReplyFor`, and `SelectReply` for the whole answer) and the
  handler's code from the decoded answer on (`HandleWorkflowResponse`).
- `scenarios.dfy` (module `Scenarios`): two concrete reply texts. One has two
  lists separated by other text. The other has a nested record list that the
  lazy pattern cuts short.

The literal decoder (`ast.literal_eval`) is a parameter of type
`string -> Option<Value>`. `None` stands for the ValueError or SyntaxError
that `parse_langflow_response` catches and reports.

The lookup runs Python expressions on whatever JSON the workflow returns, so a
level with the wrong type is not always a "missing" level:

- `in` on a list compares elements, and `in` on a string looks for a substring.
- Indexing the wrong kind of value raises TypeError or KeyError.
- `.get` on a value that is not a dict raises AttributeError.
- A truthy text that is not a string makes the pattern search raise TypeError.
- `json.dumps` raises TypeError on a set, bytes, a complex number or
  Ellipsis, and on a dict key that is not a string, number, boolean or None.

The handler catches none of these, so the model reports them as
`Reply.Unhandled`. For the same reason the lookup returns
`Outcome<Option<Json>>` rather than a plain optional string.

## Model

| member | source | states |
|---|---|---|
| Extractor.FindOpen | main.py:18-19 | the result is the first index at or after `from` where `[{` starts, or none when there is no such index |
| Extractor.FindClose | main.py:18-19 | the result is the first index at or after `from` where `}]` starts, or none when there is no such index |
| Extractor.NextSpan | main.py:18-19 | the result is the leftmost match of the pattern at or after `from`, with its lazy end; none means that no match starts at or after `from` |
| Extractor.Spans | main.py:18-19 | every selected span starts at or after `from` and is a lazy match of the pattern |
| Extractor.MatchTexts | main.py:18-19 | the matched texts are the slices of the text at the selected spans, one for each span and in the same order |
| Extractor.FindNext | main.py:18-19 | the index-by-index scan for `[{` and then `}]` returns exactly the leftmost lazy match |
| Extractor.FindAll | main.py:18-19 | the scan returns all the matched texts in order, and each begins with `[{`, ends with `}]` and holds no earlier `}]` |
| Extractor.ParseLangflowResponse | main.py:16-32 | the loop's result is the in-order concatenation of the element lists of the matches that decode to a list |
| Extractor.LazyMatchUnique | main.py:18 | a match of the lazy pattern that starts at a given index has only one possible end |
| Extractor.LazyMatchIsMatchable | main.py:18 | the pattern matches at the start of each of its lazy matches |
| Extractor.SpansAreFindAll | main.py:18-19 | the selected spans are a left-to-right findall: each span is the leftmost match after the previous one's end, and no match starts after the last one |
| Extractor.FindAllUnique | main.py:18-19 | any sequence of spans that is a findall of the pattern equals the selected spans, so the pattern's meaning alone fixes the scan |
| Extractor.FindAllInOrder | main.py:18-19 | the spans of a findall are lazy matches, do not overlap and appear in increasing position order |
| Extractor.MatchIsShortestBracketed | main.py:18 | the text of a lazy match begins with `[{`, ends with `}]` and holds no `}]` before its final two characters |
| Extractor.MatchTextsShortest | main.py:18-19 | every text the scan selects is the shortest bracketed text from its opening `[{` |
| Extractor.NoOpeningNoObjects | main.py:18-32 | a text with no `[{` yields an empty result |
| Extractor.NoClosingNoObjects | main.py:18-32 | a text with no `}]` after any `[{` yields an empty result |
| Extractor.ContributionsAgree | main.py:21-27 | the result after the first n matches depends only on those n matches |
| Extractor.ContributionsAppendUpTo | main.py:21-27 | handling all of one run of matches and then the first k of another appends the second run's contributions after the first's |
| Extractor.ContributionsAppend | main.py:21-27 | handling two runs of matches concatenates their contributions, so elements are neither reordered nor dropped |
| Extractor.ContributionOfOne | main.py:23-30 | one match contributes the elements of the list it decodes to, and nothing when it fails to decode or decodes to a non-list |
| Extractor.SkipUnusable | main.py:23-30 | a match that fails to decode or is not a list can be removed without changing the result, and the matches after it are still handled |
| Extractor.ContributionsLength | main.py:21-27 | the result's length is the sum of the lengths of the decoded lists |
| Handler.HandleWorkflowResponse | main.py:78-99 | the handler, running the extractor loop, sends exactly the reply that `SelectReply` chooses |
| Handler.MessageTextFoundIff | main.py:86-88 | from the message on, a text is found exactly when the message is a dict whose `data` is a dict holding that text under `text` |
| Handler.SecondOutputTextFoundIff | main.py:85-88 | from the second output on, a text is found exactly when `results` and `message` are dicts that lead to it |
| Handler.FirstOutputTextFoundIff | main.py:83-88 | from the first output on, a text is found exactly when its `outputs` is a non-empty list whose first element leads to it |
| Handler.ResponseTextFoundIff | main.py:79-88 | the lookup yields a text exactly when the answer has the documented nested shape down to that text |
| Handler.DocumentedPathUnique | main.py:79-88 | the documented shape leads to at most one text |
| Handler.ReplyForEchoIff | main.py:90-97 | once the lookup has run, the raw text is echoed exactly when the lookup found a non-empty string from which nothing is extracted |
| Handler.ReplyForShowObjectsIff | main.py:90-95 | once the lookup has run, the objects are shown exactly when the lookup found a string from which they are extracted, they are non-empty, and JSON can hold them all |
| Handler.NoOutputsNoText | main.py:81-99 | a dict answer whose `outputs` is missing or falsy (null, false, zero, empty string, list or dict) yields no text, no exception, and the no-text reply |
| Handler.GuardsNeverRaise | main.py:79-99 | when every level the lookup reaches has its documented type (missing keys and empty lists allowed), no guard raises, and the no-text reply comes exactly when no truthy text sits at the documented place |
| Handler.EchoIff | main.py:90-97 | the raw text is echoed back, unchanged, exactly when it is a non-empty string at the documented place from which nothing is extracted |
| Handler.ShowObjectsIff | main.py:90-95 | the objects are shown exactly when they are non-empty, JSON can hold them all, and they are extracted from the text at the documented place |
| Handler.NoTextIff | main.py:79-99 | the no-text reply is chosen exactly when the lookup raises nothing and no truthy text sits at the documented place |
| Handler.NonStringTextRaises | main.py:88-91 | a truthy text that is not a string ends the handler with a TypeError instead of a reply |
| Scenarios.TwoListSpans | main.py:18-19 | in `[{"a":1}] noise [{"b":2}]` the scan selects exactly the two lists |
| Scenarios.TwoListTexts | main.py:18-19 | the texts handed to the decoder are the two lists, in order |
| Scenarios.TwoListsConcatenate | main.py:16-32 | when each list decodes to one record, the result is both records in order |
| Scenarios.ConcatenateTwo | main.py:21-27 | two matches that each decode to a one-record list contribute those two records in order |
| Scenarios.NestedListCutShort | main.py:18-19 | in `[{'a': [{'b': 1}]}]` the first `}]` ends the only match, so the selected text is `[{'a': [{'b': 1}]` |
| Scenarios.NestedListYieldsNothing | main.py:18-30 | when the decoder rejects that cut-short text, a nested record list yields nothing |

## Left out

- The literal decoder's grammar (`ast.literal_eval`, main.py:25) is a parameter. The model does not cover exceptions other than ValueError and SyntaxError. The likeliest is the TypeError raised for an unhashable dict key or set element, as in `[{{'name': 'x'}}]`: it escapes both main.py:28 and main.py:102-105, so the handler ends without a reply. RecursionError on very deep nesting is another.
- Speech-to-text: loading the model and transcribing (main.py:12-14, 50-51). This is an external library.
- File download, ffmpeg conversion and file removal (main.py:36-47, 53-55). This is file and process I/O.
- The HTTP request, `raise_for_status` and `response.json()` (main.py:59-78), with the two `except` clauses around them (main.py:102-105). The model starts from the decoded JSON document.
- The chat messages themselves (main.py:57, 95, 97, 99), the bot builder and the polling loop (main.py:108-116). `Reply` names which message is sent, and the sending is not modelled.
- Diagnostic printing (main.py:29-30, 92) and the pretty-printing done by `json.dumps` (main.py:94). Only whether `json.dumps` raises is modelled.
- The endpoint URL and the two tokens (main.py:60, 70, 112) are configuration.
- JSON numbers are `real`s. NaN and the infinities, which Python's decoder also accepts, are not modelled.
