# Virtual patient chat core, modelled in Dafny

This project models the deterministic core of the virtual-patient chat server in `app.py`. A
"creator" language model invents a patient case as JSON. An "actor" model then plays that patient
in a conversation kept per thread id. The model covers:

- **`parse_json`** (Fences). It deletes markdown code fences with the regex ```` ```json\s*|``` ````
  and trims the text. It then passes the text from the first `{` to the last `}` to `json.loads`.
  A text with no `{` gives the empty dict.
- **`generate_patient` after the model call** (Patient). A string under `visible_symptoms` is
  wrapped into a one-element list. Any failure gives the fixed Alex/Migraine case: the model call
  raising, a parse error, a non-dict result, or a missing `name` or `disease`.
- **`get_system_prompt`** (Patient). The persona template is filled field by field. The two lists
  are joined with `", "`. A missing key or a value that cannot be joined raises.
- **`bot_node`, the `operator.add` reducer and `chat`** (Session). They form a state machine over
  `patient_store` (thread id → case) and the checkpointer (thread id → message list). `Turn` is
  the function that defines a turn. `ChatServer` is a class with those two map fields. Its `Chat`
  method is proved to do exactly what `Turn` says.

The language models and `json.loads` are parameters. The creator's answer is an
`Option<string>`, where None means the call raised. The actor is a function from the thread's
messages to an `Option<string>`. The parser is a function from text to a JSON value or an error.
JSON values live in `Json`. A dict is a sequence of key/value members in insertion order. `Str`
and `Repr` give what an f-string hole prints.

Some of the code's behaviour differs from what a reader might expect, and the model follows the code:

- One might expect the generator to check `visible_symptoms` and `treatment` as well. The code
  only reads `name` and `disease` (in the log line inside the `try`). A case without `treatment`
  is therefore kept, and it then fails in `get_system_prompt` (`MissingTreatmentIsKept`).
- Persona rendering might be expected never to fail. The code raises on a missing key. That call
  is outside the `try` in `chat`, so the request fails with 500. By then `patient_store` already
  holds the new case and the thread has no messages, so the next request for that thread
  generates a new case.
- A text with `{` but no `}` after it does not take the `{}` branch, because the guard
  `end != -1` never fails. It sends the empty string to `json.loads`. Both routes end in the
  default case (`NoBraceGivesDefault`, `UnclosedBraceGivesDefault`).
- When the model call fails, the fallback reply is a *human*-tagged message holding `"..."`.
  On a first turn the thread holds the system persona, the human message and the reply. On
  later turns it gains the human message and the reply.
- Session creation is not atomic: nothing stops two concurrent first turns from both creating
  a session.

## Model

| member | source | states |
|---|---|---|
| `Strings.TrimStart` | app.py:38 | the result is a suffix of the input; everything dropped is whitespace; it does not start with whitespace (also the greedy `\s*`) |
| `Strings.TrimEnd` | app.py:38 | the result is a prefix; everything dropped is whitespace; it does not end with whitespace |
| `Strings.Strip` | app.py:38 | the result is an infix with only whitespace before and after it, and it neither starts nor ends with whitespace |
| `Strings.Find` | app.py:39 | -1 exactly when the character is absent; otherwise an index holding it with no earlier occurrence |
| `Strings.RFind` | app.py:39 | -1 exactly when the character is absent; otherwise an index holding it with no later occurrence |
| `Strings.SliceBound` | app.py:40 | a slice bound is clamped to 0..n, and a negative bound counts from the end |
| `Strings.Slice` | app.py:40 | `s[start:stop]` is the ordinary infix for in-range bounds and empty when stop is at or before start |
| `Strings.TrimStartKeepsChar` | app.py:38 | dropping leading whitespace keeps every other character, as often as it occurs |
| `Strings.Join` | app.py:96 | `sep.join(xs)` of no parts is empty and of one part is that part; its other properties are the lemmas below |
| `Strings.JoinLength` | app.py:96 | a join is as long as its parts together plus one separator between each two neighbours |
| `Strings.JoinEnds` | app.py:96 | a join starts with its first part and ends with its last |
| `Strings.JoinAppend` | app.py:96 | joining one more part appends the separator and that part, so parts come out in list order |
| `Strings.JoinEmbeds` | app.py:96 | every part of a join occurs in it, in order, without overlap |
| `Strings.Fill` | app.py:93-106 | an f-string with no holes is its one text piece; its other properties are the lemmas below |
| `Strings.FillLength` | app.py:93-106 | a filled f-string is as long as its text pieces and hole values together |
| `Strings.FillEnds` | app.py:93-106 | a filled f-string starts with its first text piece and ends with its last |
| `Strings.FillEmbeds` | app.py:93-106 | every hole value of an f-string occurs in the text, in order |
| `Strings.FillAppend` | app.py:93-106 | each hole value sits exactly between the text pieces around it: adding a last hole and piece appends them |
| `Fences.RemoveFences` | app.py:38 | the regex deletion never lengthens the text |
| `Fences.RemoveFencesLeavesNoFence` | app.py:38 | after the deletion no three backticks in a row remain, including any formed across a deleted marker |
| `Fences.RemoveFencesKeepsOtherChars` | app.py:38 | every character other than whitespace and the letters of "```json" keeps its number of occurrences |
| `Fences.KeepHead` | app.py:38 | a first character that does not start "```" is kept, and the scan goes on after it |
| `Fences.LoneBacktick` | app.py:38 | a backtick not followed by another backtick is kept in its place |
| `Fences.LoneBacktickExample` | app.py:38 | ``"`a```"`` cleans to ``"`a"``: the stray backtick stays and only the fence goes |
| `Fences.PlainPrefix` | app.py:38 | text without backticks passes through unchanged and in order, whatever follows it |
| `Fences.FencedJsonReply` | app.py:38 | "```json", whitespace, a body without backticks that does not start with whitespace, then "```" comes out as exactly the body |
| `Fences.FencedPlainReply` | app.py:38 | "```", a body without backticks that does not start with "json", then "```" comes out as exactly the body |
| `Fences.RemoveFencesKeepsPlainText` | app.py:38 | a text without a fence is left unchanged |
| `Fences.RemoveFencesIdempotent` | app.py:38 | cleaning twice equals cleaning once |
| `Fences.Clean` | app.py:38 | the cleaned text has no fence, neither starts nor ends with whitespace, and is the fence-free text with only leading and trailing whitespace removed |
| `Fences.SliceIsBraceSlice` | app.py:39-40 | the slice runs from the first `{` to the last `}` inclusive, or is empty when no `}` follows the first `{` |
| `Fences.ExtractObjectText` | app.py:38-40 | the `{}` branch is taken exactly when the cleaned text has no `{`; otherwise the parser gets the brace slice, which holds no fence |
| `Fences.UnclosedBraceSlice` | app.py:39-40 | a `{` with no `}` after it sends the empty slice to the parser |
| `Fences.ParseJson` | app.py:36-40 | no `{` gives the empty dict; otherwise the result is exactly what the parser makes of the extracted slice |
| `Json.Has` | app.py:75 | `k in d`, the test behind `p['name']`; its meaning is stated by `HasFindsKey` |
| `Json.HasFindsKey` | app.py:75 | a key is in a dict exactly when some member carries it |
| `Json.Keys` | app.py:73 | the keys of a dict, one per member, in insertion order |
| `Json.Get` | app.py:73 | `d.get(k)` finds a value exactly when k is in d |
| `Json.GetFirst` | app.py:73 | the value found is the one at the first position holding the key |
| `Json.GetOr` | app.py:155-157 | `d.get(k, default)` is the stored value when present and the default otherwise |
| `Json.Put` | app.py:74 | after `d[k] = v` the key maps to v and every other key to what it had; the keys are the old ones plus k; an existing key keeps its place and a new one goes last |
| `Json.Digit` | app.py:94 | a decimal digit character stands for the digit it was made from |
| `Json.HexDigit` | app.py:94 | a hex digit character stands for the digit it was made from |
| `Json.NatToDecimal` | app.py:94 | `str(n)` is a non-empty run of digits without a leading zero that reads back as n |
| `Json.IntToDecimal` | app.py:94 | `str(i)` is a minus sign for a negative i followed by at least one digit, with no leading zero, reading back as the absolute value |
| `Json.ShowsIntUnique` | app.py:94 | only one text meets that description for each int, so it is exactly `str(i)` |
| `Json.QuoteFor` | app.py:94 | `repr` quotes a str with a single or a double quote |
| `Json.EscapeChar` | app.py:94 | a printable character other than the quote and the backslash is written as it is; every other character becomes an escape starting with a backslash |
| `Json.Escape` | app.py:94 | escaping never shortens a str, and a str with nothing to escape is written unchanged |
| `Json.UnescapeEscape` | app.py:94 | escaping a str as `repr` does and reading the escapes back gives the str |
| `Json.QuoteString` | app.py:94 | `repr(s)` is a quoted literal in the quote `repr` chooses whose body reads back as s |
| `Json.Repr` | app.py:94-96 | `repr` gives None/True/False for those, exactly `str(i)` for an int, a quoted literal reading back as a str, and for a list or dict the items' (or `key: value`) reprs joined by ", " inside brackets or braces |
| `Json.Str` | app.py:94 | an f-string hole prints a str as itself, an int as its digits and a list or dict bracketed, each as `repr` gives it |
| `Patient.Normalise` | app.py:72-74 | a str under `visible_symptoms` becomes `[s]`; the keys, their order and the other values are unchanged; any other record is returned as it is; the result's symptoms are never a bare str |
| `Patient.NormaliseIdempotent` | app.py:72-74 | normalising twice equals normalising once |
| `Patient.GeneratePatient` | app.py:70-87 | never fails; the case returned always has a name and a disease, and its symptoms are not a bare str |
| `Patient.FromParsed` | app.py:70-87 | an accepted parse result (a dict with name and disease) gives that dict normalised; every other result gives exactly the default case |
| `Patient.GenerateKeepsAcceptedCase` | app.py:71-76 | a reply that parses to a dict with name and disease is kept with the same keys and values, except that str symptoms are wrapped |
| `Patient.GenerateFallsBack` | app.py:77-87 | every other outcome (call raised, parse error, non-dict, missing name or disease) gives exactly the default case |
| `Patient.NoBraceGivesDefault` | app.py:39-40 | a reply with no `{` gives the default case |
| `Patient.UnclosedBraceGivesDefault` | app.py:39-40 | a reply whose first `{` has no `}` after it gives the default case when the parser rejects the empty text |
| `Patient.MissingTreatmentIsKept` | app.py:70-76 | `treatment` is not checked: an accepted case without it is stored without it, and its persona cannot be rendered |
| `Patient.KeptWithoutTreatment` | app.py:70-76 | the same, stated on the parse result |
| `Patient.NoTreatmentNoPersona` | app.py:104 | a case without `treatment` cannot be rendered |
| `Patient.DefaultGet` | app.py:79-87 | each key of the fixed default case looks up the value written next to it |
| `Patient.DefaultIsPatient` | app.py:79-87 | the default case has a name, a disease and a list of symptoms |
| `Patient.DefaultRenders` | app.py:79-106 | the default case always renders a persona |
| `Patient.JoinValue` | app.py:96 | `", ".join(v)` succeeds exactly on a list of str only, a str or a dict; a list's items, or a dict's keys, appear in the result in order; numbers, bools, None and mixed lists cannot be joined |
| `Patient.JoinListOfStrings` | app.py:96 | a list of str joins to its items separated by ", " |
| `Patient.JoinLetters` | app.py:104 | joining one-letter parts with ", " gives 3n-2 characters: the letters in order with ", " between each two |
| `Patient.StringTreatmentIsSpelledOut` | app.py:104 | a treatment given as a str of n letters joins to 3n-2 characters: each letter in order, with ", " between each two |
| `Patient.Field` | app.py:94 | `p[k]` succeeds exactly when k is present |
| `Patient.Joined` | app.py:96 | `", ".join(p[k])` succeeds exactly when k is present and its value is joinable |
| `Patient.RenderPersona` | app.py:89-106 | raises exactly when one of the eight keys is missing or a list cannot be joined; otherwise the text is the template filled with name, age, sex, disease, symptoms, secret symptom, treatment and personality, in that order |
| `Patient.PersonaFrame` | app.py:93-106 | a rendered persona begins with the ROLE line, ends with the TONE rule's closing words, and is as long as the template text and the eight values together |
| `Session.Admissible` | app.py:134 | `not uid or not msg` is false exactly when both fields are present and non-empty; what follows from it is stated by `BadRequestChangesNothing` and `Turn` |
| `Session.AddMessages` | app.py:109-110 | the reducer keeps the current messages as a prefix and puts the update after them |
| `Session.BotNode` | app.py:112-117 | the reply is tagged AI exactly when the model answered and then carries its text; otherwise it is a human-tagged `"..."`; never a system message |
| `Session.Checkpoint` | app.py:141 | a thread's checkpointed messages are its stored list, and a thread never seen has none |
| `Session.Header` | app.py:155-157 | each of name, age and sex is the stored case's value when that key is present, and "Unknown", "?", "?" respectively when it or the whole case is absent |
| `Session.Invoke` | app.py:149-153 | an invoke leaves the store alone, creates or extends the thread while keeping every thread's old messages as a prefix, and answers with a reply |
| `Session.InvokeAppends` | app.py:149-153 | the thread becomes its old messages, then the inputs, then the bot node's message for exactly those, and the response is that message's content with the header |
| `Session.InvokeOneReply` | app.py:149-153 | an invoke adds the inputs and one reply: the length grows by the inputs plus one, the old messages stay in front and the last input sits just before the reply |
| `Session.InvokeLeavesOthers` | app.py:149 | an invoke changes no other thread and no stored case |
| `Session.Open` | app.py:142-153 | a new session stores the case first; the turn is 500 exactly when the persona cannot be rendered, and then no thread changes; otherwise the thread becomes its checkpoint, the persona, the human message and the bot node's reply to those, and the response is that reply with the new case's header |
| `Session.Turn` | app.py:130-161 | sessions and stored cases are never removed; every thread's old messages stay a prefix of its new ones; an answered turn had a valid request and its thread now has messages |
| `Session.BadRequestChangesNothing` | app.py:132-135 | a missing or empty thread id or message gives 400, leaves both maps as they were, and consults neither model nor parser |
| `Session.FirstTurnOpensSession` | app.py:141-146 | a new thread gets exactly one generated case; the model sees `[system(persona), human(message)]`; a persona that fails leaves the thread empty with the case stored |
| `Session.LaterTurnSendsOnlyTheMessage` | app.py:138-149 | a known thread sends only the human message after its history; the store is unchanged and the creator is not consulted |
| `Session.OneReplyPerTurn` | app.py:149-153 | one invoke appends the inputs and exactly one reply; the response is that reply's content, `"..."` when the model raised |
| `Session.OtherThreadsUntouched` | app.py:137-149 | no other thread's messages or stored case change |
| `Session.TurnPreservesInv` | app.py:138-153 | every thread with messages has a stored case, every stored case has name and disease, and every thread is persona then (human, reply) pairs |
| `Session.HeaderShowsStoredName` | app.py:145-157 | an answered turn's header name is the stored case's own name, never the "Unknown" default |
| `Session.ChatServer.constructor` | app.py:26 | the store and the checkpointer start empty and satisfy the invariant |
| `Session.ChatServer.Chat` | app.py:129-161 | the response and both new maps are exactly those of `Turn` on the old maps, and the invariant is kept |
| `Session.ChatServer.StartThread` | app.py:142-149 | the new case is stored first; a persona that fails ends with 500 and no checkpoint; otherwise the persona goes before the message and one agent run follows, all as `Open` says |
| `Session.ChatServer.RunAgent` | app.py:149-158 | the input step and the bot-node step are checkpointed in order, and the response carries the last message's content and the header |

## Left out

- Flask routing, CORS, static files and the JSON request body (app.py:22-23, 129-131, 163-170). A request is modelled as two optional strings. Non-string `thread_id` or `message` values and a body that is not JSON are not modelled.
- The ChatGroq calls, model names and temperatures, the random choice among API keys, and environment loading (app.py:18-20, 29-34, 46, 115). They are oracles passed in as parameters. The creator prompt text (app.py:48-68) only matters to the model, so it is not modelled.
- How `json.loads` parses text. It is a parameter, and the lemma that needs it to reject the empty text says so in its `requires`.
- Json.Get: on a loader result with a repeated key the lookup takes the first occurrence, where a dict built by `json.loads` keeps the last value; a loader is taken to give dicts with distinct keys.
- LangGraph graph construction and MemorySaver internals (app.py:119-125). Only the observable behaviour is kept: per-thread messages with append semantics, the input step and then the node step.
- `print` logging (app.py:44, 75, 78, 143). The log line at app.py:75 is where a missing `name` or `disease` raises, and the model keeps exactly that check.
- The `except` returning 500 with `str(e)` (app.py:160-161). In the model nothing inside that `try` can raise, because `bot_node` catches every model failure. `ServerError` stands for the uncaught rendering failure outside the `try`.
- Concurrency. Each `Chat` call is atomic in the model, and the race between two first turns on one thread is not modelled.
- Json.EscapeChar: a non-ASCII character that Python's `repr` escapes as unprintable (U+0085, U+00A0, U+2028 and the like) is kept as it is, because Unicode's printable classes are not modelled.
- Json.Escape: keeps such non-ASCII characters unescaped, for the same reason.
- Json.QuoteString: inherits the same difference from `Json.Escape`.
- Json.Unescape: it reads only the escapes `repr` writes; Python's other escapes (`\a`, octal, `\u`, …) are not modelled.
- Json.Repr: a float is carried with the text Python prints for it; that text is not computed.
- Registration, login, tokens, the Mongo store and session listing. None of them is in `app.py`, so they are not part of this model.
