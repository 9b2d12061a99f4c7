/**
 * The conversation bookkeeping of the voice chat: the role-tagged message log
 * that is sent to the reply generator (`conv_state`) and the list of
 * (user text, reply) pairs shown in the chat widget (`history`).
 *
 * The transcriber, the reply generator and the voice synthesiser are
 * parameters: the model only fixes what they are given and what is done
 * with what they return. An absent audio path (Python's `None` or `""`) is
 * the empty string.
 */
module Chat {
  import opened Str
  import opened Synthesis

  datatype Role = System | User | Assistant

  datatype Message = Message(role: Role, content: string)

  /** One line of the chat widget; the reply is `None` while it is being generated. */
  datatype Entry = Entry(user: string, reply: Option<string>)

  /** The two lists a session holds, as the event handlers return them. */
  datatype Session = Session(history: seq<Entry>, log: seq<Message>)

  const DefaultSystemPrompt: string :=
    "No eres un asistente de IA, eres quien el usuario diga que eres. Debes mantenerte en personaje. "
    + "Mantén tus respuestas concisas ya que serán habladas en voz alta."

  /**
   * The log starts with one system message and then holds, for each line of
   * the widget in order, the user's message and the assistant's reply; no
   * line is waiting for its reply.
   */
  predicate Consistent(history: seq<Entry>, log: seq<Message>) {
    |log| == 1 + 2 * |history| && log[0].role == System
    && forall k :: 0 <= k < |history| ==>
         history[k].reply.Some?
         && log[2 * k + 1] == Message(User, history[k].user)
         && log[2 * k + 2] == Message(Assistant, history[k].reply.value)
  }

  /** A fresh session under the given system prompt. */
  function UpdateSystemPrompt(newPrompt: string): (s: Session)
    ensures Consistent(s.history, s.log)
    ensures s.history == [] && |s.log| == 1 && s.log[0].content == newPrompt
  {
    Session([], [Message(System, newPrompt)])
  }

  /** The "clear" button: a fresh session under the built-in system prompt. */
  function ClearConversation(): (s: Session)
    ensures Consistent(s.history, s.log)
    ensures s.history == [] && |s.log| == 1 && s.log[0].content == DefaultSystemPrompt
  {
    Session([], [Message(System, DefaultSystemPrompt)])
  }

  /** The session the page starts with equals what the clear button produces. */
  lemma ClearRestoresInitialState()
    ensures ClearConversation() == UpdateSystemPrompt(DefaultSystemPrompt)
    ensures ClearConversation() == Session([], [Message(System, DefaultSystemPrompt)])
  {
  }

  /**
   * The user's text for a turn, or `None` when the turn is ignored: no audio
   * and blank text, or a transcription that is blank. With audio, the typed
   * text is replaced by the transcription.
   */
  function UserText(audioPath: string, text: string, transcribe: (string, string) -> string): (r: Option<string>)
    ensures r.Some? ==> !IsBlank(r.value)
    ensures r.Some? && audioPath == "" ==> r.value == text
    ensures r.Some? && audioPath != "" ==> r.value == transcribe(audioPath, text)
    ensures r.None? <==> (if audioPath == "" then IsBlank(text) else IsBlank(transcribe(audioPath, text)))
  {
    if audioPath == "" && IsBlank(text) then None
    else
      var t := if audioPath != "" then transcribe(audioPath, text) else text;
      if IsBlank(t) then None else Some(t)
  }

  /** The two lists after one call of `process_audio_input`. */
  function Turn(s: Session, audioPath: string, text: string,
                transcribe: (string, string) -> string, generate: seq<Message> -> string): (r: Session)
  {
    match UserText(audioPath, text, transcribe)
    case None => s
    case Some(t) =>
      var asked := s.log + [Message(User, t)];
      var reply := generate(asked);
      Session(s.history + [Entry(t, Some(reply))], asked + [Message(Assistant, reply)])
  }

  /** An ignored turn leaves both lists as they were. */
  lemma IgnoredTurnChangesNothing(s: Session, audioPath: string, text: string,
                                  transcribe: (string, string) -> string, generate: seq<Message> -> string)
    requires (audioPath == "" && IsBlank(text)) || (audioPath != "" && IsBlank(transcribe(audioPath, text)))
    ensures Turn(s, audioPath, text, transcribe, generate) == s
  {
  }

  /**
   * Any other turn appends the user's message and then the reply to the log,
   * appends one line to the widget, and keeps every earlier entry. The reply
   * generator sees the log up to and including the new user message.
   */
  lemma TurnAppends(s: Session, audioPath: string, text: string,
                    transcribe: (string, string) -> string, generate: seq<Message> -> string)
    requires UserText(audioPath, text, transcribe).Some?
    ensures var t := UserText(audioPath, text, transcribe).value;
            var r := Turn(s, audioPath, text, transcribe, generate);
            |r.log| == |s.log| + 2 && r.log[..|s.log|] == s.log
            && r.log[|s.log|] == Message(User, t)
            && r.log[|s.log| + 1] == Message(Assistant, generate(s.log + [Message(User, t)]))
            && |r.history| == |s.history| + 1 && r.history[..|s.history|] == s.history
            && r.history[|s.history|] == Entry(t, Some(generate(s.log + [Message(User, t)])))
  {
    var t := UserText(audioPath, text, transcribe).value;
    var r := Turn(s, audioPath, text, transcribe, generate);
    assert r.log[..|s.log|] == s.log;
    assert r.history[..|s.history|] == s.history;
  }

  /** Every turn keeps the log and the widget in step. */
  lemma TurnPreservesConsistency(s: Session, audioPath: string, text: string,
                                 transcribe: (string, string) -> string, generate: seq<Message> -> string)
    requires Consistent(s.history, s.log)
    ensures var r := Turn(s, audioPath, text, transcribe, generate);
            Consistent(r.history, r.log)
  {
    match UserText(audioPath, text, transcribe)
    case None =>
    case Some(t) =>
      var r := Turn(s, audioPath, text, transcribe, generate);
      var n := |s.history|;
      forall k | 0 <= k < |r.history|
        ensures r.history[k].reply.Some?
        ensures r.log[2 * k + 1] == Message(User, r.history[k].user)
        ensures r.log[2 * k + 2] == Message(Assistant, r.history[k].reply.value)
      {
        if k < n {
          assert r.history[k] == s.history[k];
          assert r.log[2 * k + 1] == s.log[2 * k + 1];
          assert r.log[2 * k + 2] == s.log[2 * k + 2];
        }
      }
  }

  /**
   * The session state held by the page: `process_audio_input` appends to
   * both lists in place.
   */
  class Conversation {
    var history: seq<Entry>
    var log: seq<Message>

    constructor (s: Session)
      ensures history == s.history && log == s.log
      ensures Consistent(s.history, s.log) ==> Valid()
    {
      history := s.history;
      log := s.log;
    }

    ghost predicate Valid()
      reads this
    {
      Consistent(history, log)
    }

    ghost function State(): Session
      reads this
    {
      Session(history, log)
    }

    /**
     * `process_audio_input`: ignore the turn, or append the user's message
     * and a pending line, ask for a reply, then append the reply and fill the
     * pending line. Its third result is always ""; the page's events bind
     * only the first two outputs, and the input box is emptied by a later
     * handler that sets it to `None`.
     */
    method ProcessAudioInput(audioPath: string, text: string,
                             transcribe: (string, string) -> string, generate: seq<Message> -> string)
      returns (cleared: string)
      modifies this
      ensures cleared == ""
      ensures State() == Turn(old(State()), audioPath, text, transcribe, generate)
      ensures old(Valid()) ==> Valid()
    {
      if audioPath == "" && IsBlank(text) {
        return "";
      }
      var userText := text;
      if audioPath != "" {
        userText := transcribe(audioPath, text);
      }
      if IsBlank(userText) {
        return "";
      }
      log := log + [Message(User, userText)];
      history := history + [Entry(userText, None)];
      var response := generate(log);
      log := log + [Message(Assistant, response)];
      history := history[|history| - 1 := Entry(userText, Some(response))];
      if old(Valid()) {
        TurnPreservesConsistency(old(State()), audioPath, text, transcribe, generate);
      }
      return "";
    }
  }

  /**
   * The reply `generate_audio_response` voices, or `None` when it returns
   * without synthesising: no widget line, no reference audio, or an empty or
   * missing reply on the last line.
   */
  function ReplyToVoice(history: seq<Entry>, refAudio: string): (r: Option<string>)
    ensures r.None? <==> (history == [] || refAudio == ""
                          || history[|history| - 1].reply == None || history[|history| - 1].reply == Some(""))
    ensures r.Some? ==> r.value != "" && history[|history| - 1].reply == Some(r.value)
  {
    if history == [] || refAudio == "" then None
    else
      match history[|history| - 1].reply
      case None => None
      case Some(reply) => if reply == "" then None else Some(reply)
  }

  /**
   * `generate_audio_response`: `synthesize(refAudio, refText, text, removeSilence)`
   * stands for the voice model, applied to the reply after the shaping of `infer`.
   */
  function GenerateAudioResponse<A>(history: seq<Entry>, refAudio: string, refText: string,
                                    removeSilence: bool, spell: nat -> string,
                                    synthesize: (string, string, string, bool) -> A): (r: Option<A>)
    ensures r.None? <==> ReplyToVoice(history, refAudio).None?
    ensures r.Some? ==> r.value == synthesize(refAudio, refText,
                                              PrepareText(spell, ReplyToVoice(history, refAudio).value), removeSilence)
  {
    match ReplyToVoice(history, refAudio)
    case None => None
    case Some(reply) => Some(synthesize(refAudio, refText, PrepareText(spell, reply), removeSilence))
  }

  /**
   * In a consistent session, what gets voiced is the last assistant message
   * of the log, shaped for synthesis.
   */
  lemma VoicedReplyIsLastAssistantMessage<A>(s: Session, refAudio: string, refText: string,
                                             removeSilence: bool, spell: nat -> string,
                                             synthesize: (string, string, string, bool) -> A)
    requires Consistent(s.history, s.log)
    requires s.history != [] && refAudio != ""
    requires s.log[|s.log| - 1].content != ""
    ensures s.log[|s.log| - 1].role == Assistant
    ensures GenerateAudioResponse(s.history, refAudio, refText, removeSilence, spell, synthesize)
            == Some(synthesize(refAudio, refText, PrepareText(spell, s.log[|s.log| - 1].content), removeSilence))
  {
    var k := |s.history| - 1;
    assert s.log[2 * k + 2] == Message(Assistant, s.history[k].reply.value);
  }

  /**
   * After a turn that was not ignored, with reference audio loaded and a
   * non-empty reply, the audio produced is the voice of that reply.
   */
  lemma TurnThenVoice<A>(s: Session, audioPath: string, text: string,
                         transcribe: (string, string) -> string, generate: seq<Message> -> string,
                         refAudio: string, refText: string, removeSilence: bool, spell: nat -> string,
                         synthesize: (string, string, string, bool) -> A)
    requires UserText(audioPath, text, transcribe).Some? && refAudio != ""
    requires generate(s.log + [Message(User, UserText(audioPath, text, transcribe).value)]) != ""
    ensures var reply := generate(s.log + [Message(User, UserText(audioPath, text, transcribe).value)]);
            GenerateAudioResponse(Turn(s, audioPath, text, transcribe, generate).history,
                                  refAudio, refText, removeSilence, spell, synthesize)
            == Some(synthesize(refAudio, refText, PrepareText(spell, reply), removeSilence))
  {
    TurnAppends(s, audioPath, text, transcribe, generate);
  }
}
