/** The voice-command classifier run on every speech-recognition result:
    an activation phrase gets a fixed spoken answer, otherwise the first
    entry of the command table whose phrase the transcript contains opens
    that entry's URL and announces it, otherwise nothing happens. */
module VoiceCommands {
  import opened Util
  import opened JsString

  /** One entry of the command table: the phrase listened for and the page it opens. */
  datatype Command = Command(phrase: string, url: string)

  /** The command table in insertion order, which `for...in` follows for string keys. */
  const Commands: seq<Command> := [
    Command("open youtube", "https://www.youtube.com"),
    Command("open google", "https://www.google.com"),
    Command("open linkedin", "https://www.linkedin.com/in/abhishek-gidd/"),
    Command("open github", "https://github.com/Abhigidd")
  ]

  const ActivationLong: string := "hey cosmic ai assistant"
  const ActivationShort: string := "hey cosmic ai"
  const ActivationReply: string := "How can I help you?"

  /** What one recognition result causes. `Activation(reply)` speaks `reply`;
      `Open(url, reply)` speaks `reply` and opens `url` in a new tab;
      `NoAction` speaks nothing and opens nothing. */
  datatype Action = Activation(reply: string) | Open(url: string, reply: string) | NoAction

  /** The transcript as the handler compares it: lower-cased, then trimmed. */
  function Normalize(transcript: string): (command: string)
    ensures command == [] || (!IsJsWhitespace(command[0]) && !IsJsWhitespace(command[|command| - 1]))
    ensures NoAsciiUpper(command)
  {
    TrimNoAsciiUpper(ToLower(transcript));
    Trim(ToLower(transcript))
  }

  /** The name announced for a phrase: the phrase with its first "open "
      removed, so it is the phrase itself exactly when that never occurs,
      and otherwise five characters shorter. */
  function AppName(phrase: string): (name: string)
    ensures name == phrase <==> !Includes(phrase, "open ")
    ensures Includes(phrase, "open ") ==> |name| + 5 == |phrase|
  {
    ReplaceFirst(phrase, "open ", "")
  }

  /** The handler's activation test, both phrases as written. */
  predicate IsActivation(command: string) {
    Includes(command, ActivationLong) || Includes(command, ActivationShort)
  }

  /** Whether a table entry's phrase occurs in the command. */
  function Mentions(command: string): Command -> bool {
    (c: Command) => Includes(command, c.phrase)
  }

  /** Entry `k` is the first table entry whose phrase the command contains. */
  predicate FirstHit(command: string, k: int) {
    0 <= k < |Commands| && Includes(command, Commands[k].phrase)
    && forall j :: 0 <= j < k ==> !Includes(command, Commands[j].phrase)
  }

  /** The action for an already normalized command. */
  function Respond(command: string): (a: Action)
    ensures a.Activation? <==> IsActivation(command)
    ensures a.Activation? ==> a.reply == ActivationReply
    ensures a.Open? <==> !IsActivation(command) && exists k :: FirstHit(command, k)
    ensures a.Open? ==>
              exists k :: FirstHit(command, k) && a == Open(Commands[k].url, "Opening " + AppName(Commands[k].phrase))
    ensures a == NoAction <==>
              !IsActivation(command) && forall k :: 0 <= k < |Commands| ==> !Includes(command, Commands[k].phrase)
  {
    if IsActivation(command) then Activation(ActivationReply)
    else
      match FirstIndex(Commands, Mentions(command))
      case None => NoAction
      case Some(k) =>
        assert FirstHit(command, k);
        Open(Commands[k].url, "Opening " + AppName(Commands[k].phrase))
  }

  /** `recognition.onresult`: only the last result's transcript is classified;
      the answer is the activation reply exactly when it contains `hey cosmic ai`,
      and any page opened is one of the table's. */
  function OnResult(transcripts: seq<string>): (a: Action)
    requires |transcripts| > 0
    ensures a == Activation(ActivationReply) <==> Includes(Normalize(transcripts[|transcripts| - 1]), ActivationShort)
    ensures a.Open? ==> exists k :: 0 <= k < |Commands| && a.url == Commands[k].url
  {
    var command := Normalize(transcripts[|transcripts| - 1]);
    ActivationIsShortPhrase(command);
    Respond(command)
  }

  /** The longer activation phrase adds nothing: it contains the shorter one,
      so the activation test is exactly "contains `hey cosmic ai`". */
  lemma ActivationIsShortPhrase(command: string)
    ensures IsActivation(command) <==> Includes(command, ActivationShort)
  {
    if Includes(command, ActivationLong) {
      assert OccursAt(ActivationLong, ActivationShort, 0) by {
        assert ActivationLong[..|ActivationShort|] == ActivationShort;
      }
      IncludesTransitive(command, ActivationLong, ActivationShort);
    }
  }

  /** The activation check runs first: a command containing `hey cosmic ai`
      is answered with the fixed reply even when it also names a table phrase. */
  lemma ActivationWins(command: string)
    requires Includes(command, ActivationShort)
    ensures Respond(command) == Activation(ActivationReply)
  {
  }

  /** Insertion order decides: when entry `k` is the first whose phrase occurs,
      exactly its URL is opened and its app name is announced. */
  lemma FirstEntryWins(command: string, k: nat)
    requires !Includes(command, ActivationShort)
    requires FirstHit(command, k)
    ensures Respond(command) == Open(Commands[k].url, "Opening " + AppName(Commands[k].phrase))
  {
    ActivationIsShortPhrase(command);
    FirstIndexIs(Commands, Mentions(command), k);
  }

  /** The name announced for a phrase `"open " + t` is `t`. */
  lemma {:induction false} AppNameOfOpen(phrase: string, t: string)
    requires phrase == "open " + t
    ensures AppName(phrase) == t
  {
    RemoveLeading("open ", t);
  }

  /** The names announced for the four table entries, in table order. */
  const AppNames: seq<string> := ["youtube", "google", "linkedin", "github"]

  /** Each table phrase is "open " followed by its announced name. */
  lemma AppNameAt(k: nat)
    requires k < |Commands|
    ensures AppName(Commands[k].phrase) == AppNames[k]
  {
    assert Commands[k].phrase == "open " + AppNames[k];
    AppNameOfOpen(Commands[k].phrase, AppNames[k]);
  }

  /** A command naming YouTube opens YouTube and announces it, whatever else
      it names, since YouTube is the first table entry. */
  lemma YoutubeFirst(command: string)
    requires !Includes(command, ActivationShort)
    requires Includes(command, "open youtube")
    ensures Respond(command) == Open("https://www.youtube.com", "Opening " + AppNames[0])
  {
    assert Commands[0] == Command("open youtube", "https://www.youtube.com");
    assert FirstHit(command, 0);
    FirstEntryWins(command, 0);
    AppNameAt(0);
  }
}
