/** The prompt box: submitting a prompt, the bounded retry loop around the
    generative-text request, and what the response area shows at the end.
    The network is a sequence of per-attempt outcomes; the response area,
    the loader, the requests sent, the backoff waits and the texts handed to
    the typewriter are the fields of `ChatUi`. */
module GeminiDispatch {
  import opened Util
  import opened JsString

  /** The parts of a parsed response body the handler looks at. A `Null…`
      value is a JSON `null` where an object is expected: reading a property
      of it throws a TypeError inside the `try`, which the handler treats
      like a failed request. `None` is a missing or falsy property. */
  datatype Part = NullPart | Part(text: string)
  datatype Content = Content(parts: Option<seq<Part>>)
  datatype Candidate = NullCandidate | Candidate(content: Option<Content>)
  datatype Body = NullBody | Body(candidates: Option<seq<Candidate>>)

  /** What `response.json()` gives: a parse failure or a parsed body. */
  datatype Payload = BadJson | Json(body: Body)

  /** What one `fetch` gives: a network error, or a response with its HTTP status. */
  datatype Attempt = NetErr | Response(status: int, payload: Payload)

  /** What the handlers write into the response element: a plain text, or
      one of the page's three fixed messages, named here and spelled out by
      `TextOf`. */
  datatype Display = Plain(text: string) | SilentMessage | ErrorMessage | PromptMessage

  /** The element's text content for each display. */
  function TextOf(d: Display): string {
    match d
    case Plain(t) => t
    case SilentMessage => "Sorry, the cosmos is silent right now. Please try again."
    case ErrorMessage => "Error contacting the AI. Please check the console for details."
    case PromptMessage => "Please enter a prompt to ask the AI."
  }

  /** The page's three messages are non-empty and pairwise different, so the
      element's text tells the silent reply, the error and the prompt request apart. */
  lemma MessagesDistinct()
    ensures forall d: Display, e: Display :: !d.Plain? && !e.Plain? && TextOf(d) == TextOf(e) ==> d == e
    ensures forall d: Display :: !d.Plain? ==> |TextOf(d)| > 0
  {
    assert |TextOf(SilentMessage)| == 56;
    assert |TextOf(ErrorMessage)| == 62;
    assert |TextOf(PromptMessage)| == 36;
  }

  const DefaultRetries: int := 3
  const DefaultDelay: int := 1000

  /** `response.ok`: the status is in the range 200 to 299. */
  predicate IsOk(status: int) {
    200 <= status <= 299
  }

  /** The result of reading `candidates[0].content.parts[0].text`. */
  datatype Reading = Usable(text: string) | Unusable | Throws

  /** The handler's guard on a parsed body: `candidates`, the first
      candidate's `content` and its `parts` are all present and non-empty. */
  predicate HasParts(body: Body) {
    && body.Body? && body.candidates.Some? && |body.candidates.value| > 0
    && body.candidates.value[0].Candidate? && body.candidates.value[0].content.Some?
    && body.candidates.value[0].content.value.parts.Some?
    && |body.candidates.value[0].content.value.parts.value| > 0
  }

  /** `candidates[0].content.parts[0]` of a body that passes the guard. */
  function FirstPart(body: Body): Part
    requires HasParts(body)
  {
    body.candidates.value[0].content.value.parts.value[0]
  }

  /** Evaluating the guard or reading the text dereferences a `null`: the
      body itself, the first candidate, or the first part. */
  predicate NullOnPath(body: Body) {
    || body.NullBody?
    || (body.candidates.Some? && |body.candidates.value| > 0 && body.candidates.value[0].NullCandidate?)
    || (HasParts(body) && FirstPart(body).NullPart?)
  }

  /** Reading `candidates[0].content.parts[0].text` under the handler's
      guard: the text when the guard holds and the first part is an object,
      a throw when a `null` is dereferenced on the way, and otherwise a body
      the handler cannot use. */
  function Read(body: Body): (r: Reading)
    ensures r.Usable? <==> HasParts(body) && FirstPart(body).Part?
    ensures r.Usable? ==> FirstPart(body) == Part(r.text)
    ensures r == Throws <==> NullOnPath(body)
  {
    match body
    case NullBody => Throws
    case Body(None) => Unusable
    case Body(Some(cs)) =>
      if cs == [] then Unusable
      else
        match cs[0]
        case NullCandidate => Throws
        case Candidate(None) => Unusable
        case Candidate(Some(Content(None))) => Unusable
        case Candidate(Some(Content(Some(ps)))) =>
          if ps == [] then Unusable
          else
            match ps[0]
            case NullPart => Throws
            case Part(t) => Usable(t)
  }

  /** What the loop does after one attempt. */
  datatype Verdict = Retry | Render(text: string) | Silent

  /** The `try` block of one attempt: a network error, a non-ok status, a
      body that does not parse and a body whose reading throws all land in
      the `catch`; an ok response with a parsed body ends the loop, with its
      text when it is usable and with the silent reply otherwise. */
  function Judge(a: Attempt): (v: Verdict)
    ensures a.NetErr? ==> v == Retry
    ensures a.Response? && !IsOk(a.status) ==> v == Retry
    ensures a.Response? && a.payload.BadJson? ==> v == Retry
    ensures a.Response? && a.payload.Json? && Read(a.payload.body) == Throws ==> v == Retry
    ensures v.Render? <==> a.Response? && IsOk(a.status) && a.payload.Json? && Read(a.payload.body).Usable?
    ensures v.Render? ==> v.text == Read(a.payload.body).text
    ensures v == Silent <==> a.Response? && IsOk(a.status) && a.payload.Json? && Read(a.payload.body) == Unusable
  {
    match a
    case NetErr => Retry
    case Response(status, payload) =>
      if !IsOk(status) then Retry
      else
        match payload
        case BadJson => Retry
        case Json(body) =>
          match Read(body)
          case Throws => Retry
          case Usable(t) => Render(t)
          case Unusable => Silent
  }

  /** End to end, an attempt hands text `t` to the typewriter exactly when
      the response is ok, its body parses, passes the guard, and its first
      part is an object whose text is `t`. */
  lemma JudgeRenders(a: Attempt, t: string)
    ensures Judge(a) == Render(t) <==>
      && a.Response? && IsOk(a.status) && a.payload.Json?
      && HasParts(a.payload.body) && FirstPart(a.payload.body) == Part(t)
  {
    if a.Response? && IsOk(a.status) && a.payload.Json? && HasParts(a.payload.body) && FirstPart(a.payload.body) == Part(t) {
      assert Read(a.payload.body) == Usable(t);
    }
  }

  predicate IsTerminal(a: Attempt) {
    !Judge(a).Retry?
  }

  /** `Math.pow(2, n)` for a whole exponent. */
  function Pow2(n: nat): (r: nat)
    ensures r >= 1
  {
    if n == 0 then 1 else 2 * Pow2(n - 1)
  }

  /** The first `n` backoff waits: `delay * 2^k` before attempt `k + 1`. */
  function Backoff(delay: int, n: nat): (r: seq<int>)
    ensures |r| == n
    ensures n > 0 ==> r[0] == delay
  {
    seq(n, k requires 0 <= k < n => delay * Pow2(k))
  }

  /** How a call ends: the text handed to the typewriter, the silent reply,
      the error message after the last failed attempt, or no attempt at all. */
  datatype Final = Rendered(text: string) | SilentReply | Exhausted | NoAttempt

  /** The whole call: attempts made, waits requested, and how it ended. */
  datatype Run = Run(attempts: nat, waits: seq<int>, final: Final)

  /** The retry loop as a function of the transport: the first terminal
      attempt among the first `retries` ends the call, and every failed
      attempt but the last allowed one is followed by its backoff wait. */
  function Dispatch(transport: seq<Attempt>, retries: int, delay: int): (r: Run)
    requires retries <= |transport|
    ensures r.attempts == 0 <==> retries <= 0
    ensures r.final == NoAttempt <==> retries <= 0
    ensures retries > 0 ==> r.attempts <= retries && |r.waits| == r.attempts - 1
    ensures retries <= 0 ==> r.waits == []
    ensures forall k :: 0 <= k < |r.waits| ==> r.waits[k] == delay * Pow2(k)
    ensures forall j :: 0 <= j < r.attempts - 1 ==> Judge(transport[j]) == Retry
    ensures r.final == Exhausted <==> retries > 0 && forall j :: 0 <= j < retries ==> Judge(transport[j]) == Retry
    ensures r.final == Exhausted ==> r.attempts == retries
    ensures r.final.Rendered? ==> Judge(transport[r.attempts - 1]) == Render(r.final.text)
    ensures r.final == SilentReply ==> Judge(transport[r.attempts - 1]) == Silent
  {
    if retries <= 0 then Run(0, [], NoAttempt)
    else
      assert forall j :: 0 <= j < retries ==> transport[..retries][j] == transport[j];
      match FirstIndex(transport[..retries], IsTerminal)
      case None => Run(retries, Backoff(delay, retries - 1), Exhausted)
      case Some(k) => Run(k + 1, Backoff(delay, k), FinalOf(Judge(transport[k])))
  }

  /** How the call ends after an attempt with verdict `v` that stops the loop. */
  function FinalOf(v: Verdict): Final {
    match v
    case Render(t) => Rendered(t)
    case Silent => SilentReply
    case Retry => Exhausted
  }

  /** What the response area holds when the call returns. */
  function TextAfter(f: Final): (d: Display)
    ensures d == SilentMessage <==> f == SilentReply
    ensures d == ErrorMessage <==> f == Exhausted
    ensures d == Plain("") <==> f.Rendered? || f == NoAttempt
    ensures d != PromptMessage
  {
    match f
    case Rendered(_) => Plain("")
    case SilentReply => SilentMessage
    case Exhausted => ErrorMessage
    case NoAttempt => Plain("")
  }

  /** `n` copies of the same request prompt. */
  function Repeat(prompt: string, n: nat): (r: seq<string>)
    ensures |r| == n && forall k :: 0 <= k < n ==> r[k] == prompt
  {
    if n == 0 then [] else Repeat(prompt, n - 1) + [prompt]
  }

  /** The loop stops at the first terminal attempt: after `k` failed attempts
      a terminal attempt `k` is the last one, with `k` waits before it. */
  lemma {:induction false} EarlyExit(transport: seq<Attempt>, retries: int, delay: int, k: nat)
    requires k < retries <= |transport|
    requires forall j :: 0 <= j < k ==> Judge(transport[j]) == Retry
    requires IsTerminal(transport[k])
    ensures Dispatch(transport, retries, delay) == Run(k + 1, Backoff(delay, k), FinalOf(Judge(transport[k])))
  {
    assert forall j :: 0 <= j < retries ==> transport[..retries][j] == transport[j];
    FirstIndexIs(transport[..retries], IsTerminal, k);
  }

  /** When every allowed attempt fails, all of them are made, with a wait
      between each two, and the call ends with the error message. */
  lemma AllFailed(transport: seq<Attempt>, retries: int, delay: int)
    requires 0 < retries <= |transport|
    requires forall j :: 0 <= j < retries ==> Judge(transport[j]) == Retry
    ensures Dispatch(transport, retries, delay) == Run(retries, Backoff(delay, retries - 1), Exhausted)
  {
    var r := Dispatch(transport, retries, delay);
    assert r.waits == Backoff(delay, retries - 1);
  }

  lemma BackoffGrows(delay: int, n: nat)
    ensures Backoff(delay, n) + [delay * Pow2(n)] == Backoff(delay, n + 1)
  {
  }

  /** Each wait is twice the one before it. */
  lemma BackoffDoubles(delay: int, n: nat, k: nat)
    requires k + 1 < n
    ensures Backoff(delay, n)[k + 1] == 2 * Backoff(delay, n)[k]
  {
    calc {
      Backoff(delay, n)[k + 1];
      delay * Pow2(k + 1);
      delay * (2 * Pow2(k));
      { assert delay * (2 * Pow2(k)) == 2 * (delay * Pow2(k)); }
      2 * (delay * Pow2(k));
    }
  }

  /** With the defaults, a transport that fails three times makes three
      attempts, waits 1000 then 2000, and ends with the error message. */
  lemma DefaultsExhausted(transport: seq<Attempt>)
    requires |transport| >= 3
    requires forall j :: 0 <= j < 3 ==> Judge(transport[j]) == Retry
    ensures Dispatch(transport, DefaultRetries, DefaultDelay) == Run(3, [1000, 2000], Exhausted)
  {
    var r := Dispatch(transport, DefaultRetries, DefaultDelay);
    assert Pow2(1) == 2;
    assert r.waits == [1000, 2000];
  }

  /** With the defaults, two failures then a usable body: three attempts,
      waits 1000 then 2000, and the third body's text goes to the typewriter. */
  lemma DefaultsThirdTime(transport: seq<Attempt>, text: string)
    requires |transport| >= 3
    requires Judge(transport[0]) == Retry && Judge(transport[1]) == Retry
    requires Judge(transport[2]) == Render(text)
    ensures Dispatch(transport, DefaultRetries, DefaultDelay) == Run(3, [1000, 2000], Rendered(text))
  {
    EarlyExit(transport, DefaultRetries, DefaultDelay, 2);
    assert Pow2(1) == 2;
    assert Backoff(DefaultDelay, 2) == [1000, 2000];
  }

  /** The page's response area and loader, with what the handlers sent and waited. */
  class ChatUi {
    /** The loader is shown (its `hidden` class removed). */
    var loaderVisible: bool
    /** What the response element shows. */
    var response: Display
    /** The prompt carried by each request sent, one per attempt. */
    var sent: seq<string>
    /** The backoff delays waited, in milliseconds. */
    var waits: seq<int>
    /** The texts handed to the typewriter. */
    var rendered: seq<string>

    constructor (loaderVisible: bool, response: Display)
      ensures this.loaderVisible == loaderVisible && this.response == response
      ensures sent == [] && waits == [] && rendered == []
    {
      this.loaderVisible := loaderVisible;
      this.response := response;
      sent, waits, rendered := [], [], [];
    }

    /** `callGeminiApi(prompt, retries, delay)` against the outcomes `transport`. */
    method CallGeminiApi(prompt: string, retries: int, delay: int, transport: seq<Attempt>)
      requires retries <= |transport|
      modifies this
      ensures var r := Dispatch(transport, retries, delay);
        && sent == old(sent) + Repeat(prompt, r.attempts)
        && waits == old(waits) + r.waits
        && rendered == old(rendered) + (if r.final.Rendered? then [r.final.text] else [])
        && response == TextAfter(r.final)
        && loaderVisible == (r.final == NoAttempt)
    {
      ghost var sent0, waits0, rendered0 := sent, waits, rendered;
      loaderVisible := true;
      response := Plain("");
      var i := 0;
      while i < retries
        invariant 0 <= i <= |transport| && (i <= retries || i == 0)
        invariant forall j :: 0 <= j < i ==> Judge(transport[j]) == Retry
        invariant sent == sent0 + Repeat(prompt, i)
        invariant waits == waits0 + Backoff(delay, if 0 < i == retries then i - 1 else i)
        invariant rendered == rendered0
        invariant i < retries || retries <= 0 ==> loaderVisible && response == Plain("")
        invariant 0 < i == retries ==> !loaderVisible && response == ErrorMessage
      {
        assert sent0 + Repeat(prompt, i) + [prompt] == sent0 + Repeat(prompt, i + 1);
        sent := sent + [prompt];
        var v := Judge(transport[i]);
        if v.Retry? {
          if i == retries - 1 {
            response := ErrorMessage;
            loaderVisible := false;
          } else {
            BackoffGrows(delay, i);
            assert waits0 + Backoff(delay, i) + [delay * Pow2(i)] == waits0 + Backoff(delay, i + 1);
            waits := waits + [delay * Pow2(i)];
          }
        } else {
          EarlyExit(transport, retries, delay, i);
          if v.Render? {
            // typewriterEffect clears the element and takes the text over.
            response := Plain("");
            rendered := rendered + [v.text];
            assert Dispatch(transport, retries, delay).final == Rendered(v.text);
          } else {
            response := SilentMessage;
            assert Dispatch(transport, retries, delay).final == SilentReply;
          }
          loaderVisible := false;
          return;
        }
        i := i + 1;
      }
      if retries > 0 {
        AllFailed(transport, retries, delay);
      }
    }

    /** The Ask button's click handler: an input that is empty after trimming
      only sets the prompt request message; any other input starts the call
      with the trimmed text and the default bound and delay. */
    method OnAskClick(input: string, transport: seq<Attempt>)
      requires DefaultRetries <= |transport|
      modifies this
      ensures if AllWhitespace(input) then
          && response == PromptMessage && loaderVisible == old(loaderVisible)
          && sent == old(sent) && waits == old(waits) && rendered == old(rendered)
        else
          var r := Dispatch(transport, DefaultRetries, DefaultDelay);
          && sent == old(sent) + Repeat(Trim(input), r.attempts)
          && waits == old(waits) + r.waits
          && rendered == old(rendered) + (if r.final.Rendered? then [r.final.text] else [])
          && response == TextAfter(r.final)
          && !loaderVisible
    {
      var promptText := Trim(input);
      if promptText != [] {
        assert !AllWhitespace(input);
        ghost var r := Dispatch(transport, DefaultRetries, DefaultDelay);
        assert r.final != NoAttempt;
        CallGeminiApi(promptText, DefaultRetries, DefaultDelay, transport);
      } else {
        assert AllWhitespace(input);
        response := PromptMessage;
      }
    }
  }
}
