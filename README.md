# Cosmic portfolio page: voice commands, prompt dispatcher, typewriter

This project models the three pieces of the portfolio page script
(`portfolio/script.js`) that have behaviour worth stating exactly.

- **The voice-command classifier.** This is the `recognition.onresult`
  handler. It takes the last recognised transcript, lower-cases and trims
  it, and answers in one of three ways:
  - the activation phrase `hey cosmic ai` gets a fixed spoken reply;
  - the first entry of the four-entry command table whose phrase the
    transcript contains opens that entry's page and announces it;
  - anything else does nothing.

  The JavaScript string operations it relies on are modelled in
  `js_string.dfy`: `trim`, `toLowerCase`, `includes` and `replace` with a
  string pattern, together with the first-occurrence search (ECMAScript's
  StringIndexOf) that `includes` and `replace` are defined by. The classifier itself is in
  `voice_commands.dfy`.
- **The Ask button and the generative-text request loop.**
  - The click handler trims the prompt. It either asks for a prompt or
    starts the call.
  - The call makes at most `retries` attempts and waits `delay * 2^i` after
    failed attempt `i`, but not after the last one.
  - It stops at the first ok response whose body parses and can be read
    without dereferencing a `null`. It then hands the first part's text to
    the typewriter, or shows the "silent cosmos" reply when the body has no
    usable candidate.
  - After the last failed attempt it shows the error message.

  `dispatcher.dfy` models the network as a sequence of per-attempt outcomes.
  `Dispatch` describes the loop as a function of that sequence. The class
  `ChatUi` runs the loop itself over the page state: loader visibility, the
  response element, and the requests, waits and typewriter hand-offs made.
  `ChatUi.CallGeminiApi` is proved against `Dispatch`.
- **The typewriter.** `typewriterEffect` clears the response element and
  marks the container as typing. Each interval tick then reveals one more
  character. The tick that finds the text exhausted stops the timer and
  removes the mark. `typewriter.dfy` models it as a class with a `Tick`
  method and proves that the shown text is always a prefix of the text.

The three fixed messages of the response area are kept as named cases of
`GeminiDispatch.Display`. `GeminiDispatch.TextOf` spells each one out with
the exact text the page uses, and `GeminiDispatch.MessagesDistinct` proves
that the three texts are non-empty and pairwise different.

## Model

| member | source | states |
|---|---|---|
| Util.FirstIndex | portfolio/script.js:106-115 | the `for...in` loop with early return: the result is the first table entry that satisfies the test, or none exactly when no entry does |
| Util.FirstIndexIs | portfolio/script.js:106-115 | any hit with no hit before it is the one found |
| JsString.TrimStart | portfolio/script.js:96 | leading whitespace is removed: the result is a suffix of the input, only whitespace precedes it, and it does not start with whitespace |
| JsString.TrimEnd | portfolio/script.js:96 | trailing whitespace is removed: the result is a prefix of the input, only whitespace follows it, and it does not end with whitespace |
| JsString.Trim | portfolio/script.js:211 | `trim()`: the result is a slice of the input with only whitespace around it; it is empty exactly when the input is all whitespace; otherwise both of its ends are non-whitespace |
| JsString.ToLower | portfolio/script.js:96 | `toLowerCase()` on ASCII: same length, no upper-case letter left, upper-case letters shifted by 32, every other character kept |
| JsString.TrimNoAsciiUpper | portfolio/script.js:96 | trimming a lower-cased string keeps it free of upper-case letters |
| JsString.IndexOfFrom | portfolio/script.js:109 | the first-occurrence search (StringIndexOf) that `replace` and `includes` use, for a start within the string: the first occurrence at or after `from`, or none when there is none |
| JsString.IndexOf | portfolio/script.js:109 | the first occurrence that `replace('open ', '')` removes, or none exactly when `p` never occurs |
| JsString.Includes | portfolio/script.js:107 | `includes(p)` holds exactly when `p` occurs at some index |
| JsString.OccursWithin | portfolio/script.js:100 | an occurrence of `q` inside an occurrence of `p` is an occurrence of `q` in the whole string |
| JsString.IncludesTransitive | portfolio/script.js:100 | a string containing `p` contains everything that `p` contains |
| JsString.ReplaceFirst | portfolio/script.js:109 | `replace(pat, rep)` with a string pattern and a literal replacement: the input is unchanged when `pat` does not occur; otherwise only the first occurrence is replaced |
| JsString.RemoveLeading | portfolio/script.js:109 | removing a leading pattern gives back what followed it |
| VoiceCommands.Normalize | portfolio/script.js:96 | the command compared is lower-cased and trimmed: no upper-case letter, and no whitespace at either end |
| VoiceCommands.AppName | portfolio/script.js:109 | `phrase.replace('open ', '')`: the phrase is unchanged exactly when it does not contain "open ", and is otherwise five characters shorter |
| VoiceCommands.Respond | portfolio/script.js:100-115 | activation, with the reply "How can I help you?", exactly when an activation phrase occurs; otherwise an `Open` exactly when some table phrase occurs, and then it is the URL of the first such entry and "Opening " plus its app name; otherwise no action |
| VoiceCommands.OnResult | portfolio/script.js:94-116 | only the last transcript is classified; the answer is the activation reply exactly when the normalized transcript contains `hey cosmic ai`; any page opened is one of the table's |
| VoiceCommands.ActivationIsShortPhrase | portfolio/script.js:100 | the two-phrase activation test is the same as "contains `hey cosmic ai`" |
| VoiceCommands.ActivationWins | portfolio/script.js:100-104 | the activation check comes first: containing `hey cosmic ai` gives the activation reply even when a table phrase also occurs |
| VoiceCommands.FirstEntryWins | portfolio/script.js:106-114 | when entry `k` is the first table phrase that occurs, exactly its URL is opened and its app name announced |
| VoiceCommands.AppNameOfOpen | portfolio/script.js:109 | the app name of `"open " + t` is `t` |
| VoiceCommands.AppNameAt | portfolio/script.js:82-87 | each table phrase is "open " followed by the announced name: youtube, google, linkedin, github |
| VoiceCommands.YoutubeFirst | portfolio/script.js:82-114 | a command naming YouTube opens `https://www.youtube.com` and says "Opening youtube", whatever else it names |
| Typewriter.Typewriter.constructor | portfolio/script.js:148-151 | the element is cleared, `typing` is set, and the timer starts with no tick spent |
| Typewriter.Typewriter.Tick | portfolio/script.js:152-160 | a tick appends the next character while text remains; otherwise it stops the timer and clears `typing` with the full text shown; after `k <= n` ticks the first `k` characters are shown; the shown text is never longer than the text |
| Typewriter.Render | portfolio/script.js:148-161 | a whole render takes `n + 1` ticks, ends with exactly the text shown, and ends with `typing` cleared |
| GeminiDispatch.Read | portfolio/script.js:187-190 | reading the first part's text under the guard: usable exactly when candidates, content and parts are present and non-empty and the first part is an object, with that part's text; a throw exactly when a `null` body, first candidate or first part is dereferenced |
| GeminiDispatch.Judge | portfolio/script.js:181-197 | a network error, a non-ok status, a parse failure and a throwing read are retried; an ok parsed body ends the attempt loop with its text exactly when it is usable, and with the silent reply exactly when it is not |
| GeminiDispatch.JudgeRenders | portfolio/script.js:181-191 | an attempt hands text `t` to the typewriter exactly when the response is ok, parses, passes the guard, and its first part is an object with text `t` |
| GeminiDispatch.Backoff | portfolio/script.js:204 | `n` waits, the first of them `delay` |
| GeminiDispatch.TextAfter | portfolio/script.js:163-201 | the response area when the call returns: the silent reply exactly after an unusable body, the error message exactly after running out of attempts, and cleared otherwise (the typewriter takes it over, or no attempt ran); never the prompt request |
| GeminiDispatch.MessagesDistinct | portfolio/script.js:193-216 | the silent reply, the error message and the prompt request are non-empty and pairwise different |
| GeminiDispatch.Dispatch | portfolio/script.js:173-207 | no attempt and no wait exactly when `retries <= 0`; at most `retries` attempts; one wait fewer than the attempts, wait `k` being `delay * 2^k`; every attempt before the last one failed; the error message exactly when all allowed attempts fail; otherwise the last attempt's text or silent reply |
| GeminiDispatch.EarlyExit | portfolio/script.js:173-196 | the first terminal attempt `k` ends the call after `k + 1` attempts and `k` waits |
| GeminiDispatch.AllFailed | portfolio/script.js:197-202 | when every allowed attempt fails, all of them are made, with `retries - 1` waits, and the call ends with the error message |
| GeminiDispatch.BackoffDoubles | portfolio/script.js:204 | each backoff wait is twice the one before it |
| GeminiDispatch.DefaultsExhausted | portfolio/script.js:163-205 | with the defaults, three failures make three attempts with waits 1000 then 2000, ending with the error message |
| GeminiDispatch.DefaultsThirdTime | portfolio/script.js:163-205 | with the defaults, two failures then a usable body make three attempts with waits 1000 then 2000, and the third body's text goes to the typewriter |
| GeminiDispatch.Repeat | portfolio/script.js:170-179 | the requests sent all carry the same prompt, one per attempt |
| GeminiDispatch.ChatUi.CallGeminiApi | portfolio/script.js:163-208 | the loop sends one request per attempt and records exactly the waits, the typewriter hand-off and the final response area that `Dispatch` describes; the loader stays visible only when no attempt is made |
| GeminiDispatch.ChatUi.OnAskClick | portfolio/script.js:210-217 | an all-whitespace input sets the prompt request message and changes nothing else; any other input runs the call with the trimmed text, 3 attempts and a 1000 ms delay, and ends with the loader hidden |

## Left out

- Sound: the Tone.js setup and playback are calls into an audio library.
- The Three.js scene: the starfield, planets, animation loop, mouse tracking and resize handler work with floats, `Math.random` and a rendering library.
- The subtitle markup: its animation delays come from float formatting.
- Speech plumbing: speech synthesis, and the start and restart of recognition, are browser APIs and timer wiring. `speak` and `window.open` appear only as the `Action` the classifier returns.
- The request itself: `fetch`, its headers, the payload and the URL are network I/O. Each attempt is an `Attempt` value taken from the `transport` sequence.
- Timing: real `setTimeout` and `setInterval` timing is not modelled. Waits are recorded as values in `ChatUi.waits`, and ticks are explicit `Tick` calls.
- Concurrency: overlapping submissions and overlapping renders are not modelled.
- `ChatUi` does not reveal the text itself. A usable body's text is recorded in `ChatUi.rendered`, and the response area is left cleared. `Typewriter` models the reveal that follows.
- JsString.ToLower: lower-cases the ASCII letters only. JavaScript's full Unicode case mapping is not modelled, for example KELVIN SIGN becoming `k`.
- Characters and UTF-16: a JavaScript string is modelled as a sequence of `char`. UTF-16 surrogate pairs are not modelled separately.
- JSON values of other types: a `text` that is not a string, and arrays or objects replaced by other JSON types, are not modelled. `null` where an object is expected is modelled, because reading a property of it throws inside the `try` and the attempt is retried.
- GeminiDispatch.Dispatch: requires the transport to supply at least `retries` outcomes. The handler itself asks nothing of the network.
- JsString.ReplaceFirst: takes the replacement literally. JavaScript expands `$&`, `` $` ``, `$'` and `$$` in a replacement string; the page's only replacement is the empty string.
- JsString.IndexOfFrom: requires `from` to lie within the string. StringIndexOf is only ever started at 0 by `includes` and `replace` here, so a larger start never arises.
- GeminiDispatch.Pow2: the wait is an unbounded integer. In JavaScript `delay * Math.pow(2, i)` is exact for an integer delay until it overflows to `Infinity`: from `i = 1015` with the default delay of 1000, and from `i = 1024` for any positive delay, since `Math.pow(2, 1024)` is `Infinity`. The model's wait keeps growing instead.
- VoiceCommands.OnResult: requires at least one recognition result. The browser only fires `onresult` with one.
- Retried bodies: an ok response whose parsed body is `null`, or whose first candidate or first part is `null`, is retried like a failed request, because dereferencing the `null` throws inside the `try`.
