# DuckGPT worker: verified model of its request logic

The worker in `api.js` imitates a chat-completion API. It checks a bearer key
against the comma-separated `API_KEYS` setting and answers an OPTIONS
preflight before anything else. It routes `POST /v1/chat/completions` through
a model gate to the upstream chat service and lists the supported models on
`GET /v1/models`. Every other route gets a fixed 404 payload. The upstream
answers with a newline-separated pseudo-event stream. The worker keeps the
lines that mention `message`, extracts each line's `data: ` JSON `message`,
and concatenates the results. It returns the raw upstream text when the
concatenation is empty, and a completion envelope otherwise.

This project models those three pieces of pure logic as Dafny functions and
proves their properties as lemmas:

- `wrappers.dfy`: `Option` and `Result`, standing for JavaScript's absent values and thrown errors.
- `strings.dfy`: the JavaScript string operations used: `startsWith`, `includes`,
  `split` with a non-empty separator (left to right, non-overlapping, `""` gives
  `[""]`), `Array.join`, and the decimal rendering of the timestamp in the id.
- `api_keys.dfy`: `validateApiKey`.
- `chat.dfy`: the split / filter / map / join chain at the end of `Chat` and the envelope it builds.
- `handler.dfy`: the decision order of `handleRequest`, the model gate, the model
  list and the mapping of each outcome to a response.

`JSON.parse(segment).message` is a parameter `extract: string -> Result<string, string>`.
`Success(m)` is the text that `join('')` appends for the line. `Failure(reason)` is the
parser throwing. What the two upstream calls return or throw is the parameter
`upstream`. The clock is the parameter `now`.

Three behaviours of the code worth knowing:

- An unsupported model is answered with 404 `model_not_found`.
- The segment taken from a kept line does not have to follow a leading `data: `.
  It is whatever lies between the first `data: ` anywhere in the line and the next one, or the end of the line.
- An unparseable kept line aborts the whole reassembly, and the handler turns
  that into 400 `invalid_request`. Only an empty concatenation falls back to the raw text.

## Model

| member | source | states |
|---|---|---|
| `Strings.StartsWith` | api.js:22 | a string that starts with `p` is at least as long as `p`, is `p` followed by the rest, and has `p` occurring at index 0 |
| `Strings.Contains` | api.js:138 | `includes` of a longer string is false and of the empty string is true |
| `Strings.OccursShift` | api.js:139 | an occurrence in the tail after `m` characters is an occurrence `m` places later in the whole string |
| `Strings.ContainsTransitive` | api.js:138 | a string containing `p` contains everything `p` contains |
| `Strings.Split` | api.js:26 | `split` with a non-empty separator always yields at least one piece |
| `Strings.SplitAtFirst` | api.js:139 | at the first occurrence of the separator, `split` yields the text before it followed by the split of the text after it |
| `Strings.JoinSplit` | api.js:26 | joining the pieces of `split(sep)` with `sep` gives back the original string |
| `Strings.SplitPiecesLackSeparator` | api.js:26 | no piece of a split on one character contains that character |
| `Strings.SplitAround` | api.js:137 | splitting `x + c + y` on the character `c` gives the pieces of `x` followed by the pieces of `y` |
| `Strings.SplitWithoutSeparator` | api.js:139 | a string without the separator splits into itself alone |
| `Strings.SplitHasSecondPiece` | api.js:139 | `split(sep)[1]` exists if and only if `sep` occurs in the string |
| `Strings.Join` | api.js:140 | every piece occurs in the joined string |
| `Strings.JoinConcat` | api.js:140 | `join('')` of two lists appended is the concatenation of their joins |
| `Strings.JoinEmpty` | api.js:140-142 | `join('')` is empty if and only if every piece is empty |
| `Strings.Decimal` | api.js:145 | the timestamp in the id renders as a non-empty string of decimal digits without a leading zero |
| `Strings.DecimalRoundTrip` | api.js:145 | reading the rendered digits back gives the timestamp |
| `ApiKeys.AllowList` | api.js:26 | a missing or empty `API_KEYS` allows nothing; otherwise the entries joined with commas are the setting verbatim, and no entry contains a comma |
| `ApiKeys.ValidateApiKey` | api.js:20-28 | an accepted request has an Authorization header starting with `Bearer `, a non-empty `API_KEYS`, and a comma-free token after the prefix |
| `ApiKeys.ListedIffEntry` | api.js:26-27 | a token is a comma-split entry if and only if it is comma-free and is the whole list, its first entry, its last entry, or enclosed by two commas |
| `ApiKeys.PieceIsListed` | api.js:26-27 | every comma-free piece of a list is Listed in the list joined with commas |
| `ApiKeys.ListedExtended` | api.js:26-27 | a Listed token stays Listed when another entry and a comma are put in front of the list |
| `ApiKeys.ValidateApiKeyIff` | api.js:20-28 | a key is accepted if and only if the header is present, starts with exactly `Bearer `, `API_KEYS` is present and non-empty, and the text after the first 7 characters is Listed; so a missing header, a missing prefix or a missing or empty list rejects |
| `ApiKeys.BearerTokenAccepted` | api.js:22-27 | for a header `Bearer ` + token, acceptance depends only on whether the token is Listed in a non-empty `API_KEYS` |
| `ApiKeys.EntriesAreNotTrimmed` | api.js:25-27 | with `API_KEYS` = `k1, k2`, the token `k2` is rejected and ` k2` (with the blank) is accepted |
| `ApiKeys.TwoEntries` | api.js:20-28 | against `API_KEYS` of two comma-free entries, a bearer token is accepted if and only if it equals one of them |
| `Chat.Lines` | api.js:137 | `split('\n')` yields at least one line, no line contains a newline, and joining the lines with newlines gives back the text |
| `Chat.MessageLines` | api.js:138 | the kept lines all contain `message`, are the same set of lines as the input lines that contain `message`, and are no more than the input lines |
| `Chat.MessageLinesAppend` | api.js:138 | filtering two lists appended is filtering each and appending, so order and repetitions are kept |
| `Chat.MessageLinesOne` | api.js:138 | a single line is kept exactly when it contains `message` |
| `Chat.DataSegment` | api.js:139 | `split('data: ')[1]` is missing if and only if the line has no `data: ` |
| `Chat.DataSegmentBetween` | api.js:139 | the segment is the text between the first `data: ` and the next `data: ` after it, or the end of the line |
| `Chat.DataSegmentOfPayload` | api.js:139 | for a line `data: ` + payload with no further `data: `, the segment is the payload |
| `Chat.ExtractLine` | api.js:139 | a line without `data: ` fails as a missing segment naming that line, and only such a line does; otherwise a success is what the parser gives for the segment, and a parse failure carries the segment and the parser's reason |
| `Chat.ExtractLineParsed` | api.js:139 | a line whose segment the parser accepts contributes exactly the parsed message |
| `Chat.ExtractAll` | api.js:139 | a successful map yields one message per kept line |
| `Chat.ExtractAllSucceeds` | api.js:139 | the map succeeds with a list of messages if and only if each kept line, in order, yields the message at its position |
| `Chat.ExtractAllFailsAtFirst` | api.js:139 | a failed map reports the failure of the first failing line, and every earlier line succeeded |
| `Chat.Reassemble` | api.js:137-140 | a text without `message` anywhere reassembles to the empty string |
| `Chat.NothingKeptWithoutMarker` | api.js:137-138 | a text without `message` anywhere keeps no line |
| `Chat.ReassembleAtLineBreak` | api.js:137-140 | reassembling `a + "\n" + b` is reassembling `a` then `b` and concatenating, the first failure winning |
| `Chat.ReassembleOneLine` | api.js:137-140 | a single line adds nothing unless it contains `message`, and then contributes exactly its extracted message or its failure |
| `Chat.ReassembleFails` | api.js:137-140 | reassembly fails as a whole if and only if some kept line has a missing or unparseable segment |
| `Chat.ReassembleEmpty` | api.js:137-142 | the concatenation is empty if and only if every kept line yields the empty message (including when no line is kept) |
| `Chat.ReassembleHello` | api.js:137-140 | the stream `data: {"message":"Hel"}` newline `data: {"message":"lo"}` reassembles to `Hello` |
| `Chat.ChatReply` | api.js:137-163 | a raw-text reply is the upstream text verbatim; an envelope carries the requested model, exactly one choice and non-empty content |
| `Chat.ChatReplyFails` | api.js:137-142 | `Chat` fails exactly when reassembly fails, with the same failure and no partial result |
| `Chat.ChatReplyRaw` | api.js:142 | `Chat` returns the raw upstream text, verbatim, exactly when the concatenation is empty |
| `Chat.ChatReplyEnvelope` | api.js:143-162 | a non-empty concatenation gives the envelope: object `chat.completion`, the requested model, one choice with index 0, role `assistant`, the concatenation as content, `finish_reason` `stop`, zero usage, `created` the timestamp in seconds, and an id of `chatcmpl-` followed by exactly `Decimal(now)`, the timestamp in decimal without a leading zero |
| `Handler.Status` | api.js:33-100 | errors carry their own status, a failed request body or upstream call is 400, the fixed usage payload 404, and the preflight, completions, raw text and model list 200 |
| `Handler.Dispatch` | api.js:30-101 | OPTIONS alone gives the preflight; a failed key check on any other method alone gives the 401; the completions POST with a valid key alone reaches the body and model checks; GET `/v1/models` with a valid key alone lists the models; a forwarded model is supported and a rejected one is not |
| `Handler.Respond` | api.js:33-100 | status 401 exactly for a bad key; 404 exactly for an unsupported model or an unknown route; 400 exactly for an unreadable body or a failed upstream call or reassembly; a completion carries the forwarded model |
| `Handler.Handle` | api.js:30-101 | a completion, raw text or model list is only sent for a non-OPTIONS request with a valid key; the first two only for a readable completions POST with a supported model, and a completion names that model |
| `Handler.ResolveModel` | api.js:60 | an absent or empty model becomes `gpt-4o-mini`; any other name is kept |
| `Handler.Describe` | api.js:87-92 | one descriptor per model name, in order, each with that id, object `model` and `owned_by` `duckgpt` |
| `Handler.PreflightFirst` | api.js:32-40 | an OPTIONS request is answered with the preflight (status 200) on every path, whatever the key |
| `Handler.UnauthorizedIff` | api.js:42-51 | status 401 `invalid_api_key` occurs if and only if the method is not OPTIONS and the key check fails, whatever the path |
| `Handler.CompletionsGate` | api.js:56-72 | on an authorized completions POST: an unreadable body is a 400; the default model replaces an absent or empty one; an unsupported model is a 404 before anything is forwarded; a supported one is forwarded with its messages (none when absent), even an empty list |
| `Handler.ModelNotFoundMessage` | api.js:65 | the model-not-found message starts with `Model `, the model name and ` not found.`, and contains the model name and `MODELS.join(', ')` |
| `Handler.ForwardedReply` | api.js:72-82 | a forwarded request answers 400 `invalid_request` on an upstream or reassembly failure, the raw text (sent JSON-encoded) on an empty concatenation, and otherwise the envelope with the requested model and the assembled content |
| `Handler.ModelListedOnce` | api.js:86-97 | every supported model appears exactly once in the model list, and every listed id is supported and owned by `duckgpt` |
| `Handler.AuthorizedRoutes` | api.js:86-100 | with a valid key, GET `/v1/models` returns the list of all descriptors in order; any other route except the completions POST is the fixed 404 usage payload |

## Left out

- The two `fetch` calls, the `x-vqd-4` / `x-vqd-hash-1` handshake headers and the browser-like header dictionary (api.js:104-135) are network I/O. Their outcome, the upstream text or the thrown error, is the parameter `upstream`. What is forwarded (model and messages) is recorded in the `Forward` decision.
- `JSON.parse` and the `.message` property access are the parameter `extract`. A `message` that is not a string (`undefined` joins as `""`, numbers are stringified) is folded into what `extract` returns.
- `JSON.stringify` of the responses, `Response` objects, the CORS and `content-type` header values and the `addEventListener` wiring are left out. Responses are values of the `Response` datatype.
- `Date.now()`: the source reads the clock separately for the id, for `created` and for each model descriptor. The model uses one reading, `now`.
- `handleRequest` is registered without `env` (api.js:16). The model takes `API_KEYS` as an `Option<string>` parameter.
- `async` / `await`: each request is a sequence of calls, so they are modelled as plain function composition.
- The exact text of a 400 `message` (the thrown error's `message`, written by the JavaScript engine) is not modelled. `BadRequest` carries a structured cause instead.
- Platform normalisation is not modelled: the header name lookup, trimming of header values, upper-casing of standard methods, and parsing `request.url` into a pathname. The model receives the method, the pathname and the Authorization value as the platform reports them.
- A truthy `model` that is not a string (a number, an object) is not modelled. `body.model` is a string, or absent when missing or a falsy non-string.
- A truthy `messages` that is not an array (api.js:59) is forwarded as is (api.js:133). The model types `messages` as `Option<seq<ChatMessage>>`, so it does not capture such a value.
- `RawTextBody(t)` stands for the upstream text sent through `JSON.stringify(response)` (api.js:73), so the wire body is the text as a JSON string literal. The quoting is not modelled.
- A body that parses to JSON `null` makes `body.messages` throw a `TypeError` (api.js:59), which is answered with 400. The model represents that case by `Unreadable`, like a body that does not parse.
- `ERROR_403` (api.js:10) is not modelled: it is declared and never used.
