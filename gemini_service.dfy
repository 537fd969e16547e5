/**
 * Post-processing of the generative backend's replies
 * (`services/geminiService.ts`). The backend itself is not modelled: each
 * operation takes what the backend delivered as a value, and `JSON.parse`
 * is a parameter.
 */
module GeminiService {
  import opened Types
  import opened JsText
  import Constants

  /** What `generateContent` delivered: a rejection of the call, a response
      whose `text` is undefined, or a text. */
  datatype Reply = Rejected | NoText | Text(text: string)

  /** What an operation throws: one of its own `Error`s, the backend's
      rejection passed on unchanged, or the TypeError of calling `trim` on
      an undefined text. */
  datatype Thrown = Raised(message: string) | BackendError | TypeError

  /** How an operation of the service settles. */
  datatype Outcome<+T> = Returned(value: T) | Threw(error: Thrown)

  const EMPTY_RECOGNITION: string := "Could not identify the monument. The response was empty."
  const INVALID_INFO: string := "The model returned an invalid data format for monument information."
  const INVALID_CROWD: string := "The model returned an invalid data format for crowd prediction."
  const APOLOGY: string := "I'm sorry, I encountered an error. Please try again."

  /** The text part of the recognition request; it names the sentinel answer. */
  const RECOGNITION_PROMPT: string :=
    "Identify the Indian monument in this image. Respond with only the name of the monument. If it's not a famous Indian monument, say 'Unknown Monument'."

  /** The recognition prompt offers the sentinel answer the rest of the
      application checks for. */
  lemma RecognitionPromptNamesSentinel()
    ensures Includes(RECOGNITION_PROMPT, Constants.UNKNOWN_MONUMENT)
  {
    assert RECOGNITION_PROMPT[131..131 + |Constants.UNKNOWN_MONUMENT|] == Constants.UNKNOWN_MONUMENT;
    assert OccursAt(RECOGNITION_PROMPT, Constants.UNKNOWN_MONUMENT, 131);
  }

  const INFO_HEAD: string := "Provide detailed information for the monument: "
  const CROWD_HEAD: string := "Predict the crowd level for "
  const CROWD_DATE: string := " on the date: "

  /** The prompt of the monument-information request: the name follows the
      fixed head. */
  function InfoPrompt(monumentName: string): (prompt: string)
    ensures |INFO_HEAD| + |monumentName| <= |prompt|
    ensures prompt[|INFO_HEAD|..|INFO_HEAD| + |monumentName|] == monumentName
  {
    var prompt := INFO_HEAD + monumentName + ".";
    assert prompt[|INFO_HEAD|..|INFO_HEAD| + |monumentName|] == monumentName;
    prompt
  }

  /** The prompt of the crowd-prediction request: the name follows the fixed
      head, and the date follows the name. */
  function CrowdPrompt(monumentName: string, date: string): (prompt: string)
    ensures |CROWD_HEAD| + |monumentName| + |CROWD_DATE| + |date| <= |prompt|
    ensures prompt[|CROWD_HEAD|..|CROWD_HEAD| + |monumentName|] == monumentName
    ensures var at := |CROWD_HEAD| + |monumentName| + |CROWD_DATE|;
      prompt[at..at + |date|] == date
  {
    var prompt := CROWD_HEAD + monumentName + CROWD_DATE + date
      + ". Consider factors like day of the week, holidays, and season.";
    assert prompt[|CROWD_HEAD|..|CROWD_HEAD| + |monumentName|] == monumentName;
    var at := |CROWD_HEAD| + |monumentName| + |CROWD_DATE|;
    assert prompt[at..at + |date|] == date;
    prompt
  }

  /** Both schema-mode prompts name the monument they are about. */
  lemma PromptsNameTheMonument(monumentName: string, date: string)
    ensures Includes(InfoPrompt(monumentName), monumentName)
    ensures Includes(CrowdPrompt(monumentName, date), monumentName)
    ensures Includes(CrowdPrompt(monumentName, date), date)
  {
    assert OccursAt(InfoPrompt(monumentName), monumentName, |INFO_HEAD|);
    var crowd := CrowdPrompt(monumentName, date);
    assert OccursAt(crowd, monumentName, |CROWD_HEAD|);
    assert OccursAt(crowd, date, |CROWD_HEAD| + |monumentName| + |CROWD_DATE|);
  }

  // ------------------------------------------------------ identifyMonument

  /** `identifyMonument`: the reply text with its surrounding whitespace
      removed, or the "empty response" error when nothing else is left. */
  function IdentifyMonument(reply: Reply): (r: Outcome<string>)
    ensures reply.Rejected? ==> r == Threw(BackendError)
    ensures reply.NoText? ==> r == Threw(TypeError)
    ensures reply.Text? ==> (r == Threw(Raised(EMPTY_RECOGNITION)) <==> AllWhitespace(reply.text))
    ensures r.Returned? ==> reply.Text? && r.value == Trim(reply.text) && r.value != []
    ensures reply.Text? && !AllWhitespace(reply.text) ==> r == Returned(Trim(reply.text))
  {
    if reply.Rejected? then Threw(BackendError)
    else if reply.NoText? then Threw(TypeError)
    else
      var name := Trim(reply.text);
      if name == [] then Threw(Raised(EMPTY_RECOGNITION)) else Returned(name)
  }

  /** A returned name is a slice of the reply with only whitespace around
      it, and it neither starts nor ends with whitespace. */
  lemma IdentifiedNameIsTrimmedSlice(text: string)
    requires IdentifyMonument(Text(text)).Returned?
    ensures var name := IdentifyMonument(Text(text)).value;
      && name != [] && !IsWhitespace(name[0]) && !IsWhitespace(name[|name| - 1])
      && exists lo :: TrimmedAt(text, name, lo)
  {
    var name := IdentifyMonument(Text(text)).value;
    assert name == Trim(text);
    var lo :| TrimmedAt(text, Trim(text), lo);
    assert TrimmedAt(text, name, lo);
  }

  /** A name without surrounding whitespace, however padded, comes back verbatim. */
  lemma IdentifyKeepsUnpadded(pre: string, name: string, post: string)
    requires AllWhitespace(pre) && AllWhitespace(post)
    requires name != [] && !IsWhitespace(name[0]) && !IsWhitespace(name[|name| - 1])
    ensures IdentifyMonument(Text(pre + name + post)) == Returned(name)
  {
    TrimIgnoresPadding(pre, name, post);
    TrimOfUnpadded(name);
  }

  /** The sentinel answer, however padded, comes back verbatim. */
  lemma IdentifyKeepsSentinel(pre: string, post: string)
    requires AllWhitespace(pre) && AllWhitespace(post)
    ensures IdentifyMonument(Text(pre + Constants.UNKNOWN_MONUMENT + post)) == Returned(Constants.UNKNOWN_MONUMENT)
  {
    assert Constants.UNKNOWN_MONUMENT[0] == 'U' && Constants.UNKNOWN_MONUMENT[|Constants.UNKNOWN_MONUMENT| - 1] == 't';
    IdentifyKeepsUnpadded(pre, Constants.UNKNOWN_MONUMENT, post);
  }

  /** A text that neither starts nor ends with whitespace is its own trim. */
  lemma TrimOfUnpadded(s: string)
    requires s != [] && !IsWhitespace(s[0]) && !IsWhitespace(s[|s| - 1])
    ensures Trim(s) == s
  {
  }

  // ------------------------------------------------------- getMonumentInfo

  /** `getMonumentInfo`: the parsed reply, passed on without any check of its
      fields, or the "invalid data format" error when parsing fails.
      `parse` stands for `JSON.parse`, `None` for a parse that throws. */
  function GetMonumentInfo<J>(reply: Reply, parse: string -> Option<J>): (r: Outcome<J>)
    ensures reply.Rejected? ==> r == Threw(BackendError)
    ensures reply.NoText? ==> r == Threw(TypeError)
    ensures reply.Text? ==> (r.Returned? <==> parse(Trim(reply.text)).Some?)
    ensures reply.Text? && r.Returned? ==> parse(Trim(reply.text)) == Some(r.value)
    ensures reply.Text? && r.Threw? ==> r == Threw(Raised(INVALID_INFO))
  {
    match reply
    case Rejected => Threw(BackendError)
    case NoText => Threw(TypeError)
    case Text(t) =>
      match parse(Trim(t))
      case Some(info) => Returned(info)
      case None => Threw(Raised(INVALID_INFO))
  }

  /** Whitespace around the JSON text does not change the outcome. */
  lemma InfoIgnoresPadding<J>(pre: string, t: string, post: string, parse: string -> Option<J>)
    requires AllWhitespace(pre) && AllWhitespace(post)
    ensures GetMonumentInfo(Text(pre + t + post), parse) == GetMonumentInfo(Text(t), parse)
  {
    TrimIgnoresPadding(pre, t, post);
  }

  // ------------------------------------------------------- predictRushHour

  /** A property of a parsed JSON object, as far as the post-processing can
      tell values apart. */
  datatype JsonValue = Missing | Str(s: string) | OtherValue

  /** The three properties of a parsed crowd prediction. */
  datatype Prediction = Prediction(level: JsonValue, visitorCount: JsonValue, recommendation: JsonValue)

  /** What `JSON.parse` makes of the crowd reply: a parse error, `null`, a
      number, string or boolean, or an object (an array is an object whose
      three properties are missing). */
  datatype ParsedCrowd = Unparseable | JsonNull | JsonScalar | JsonObject(fields: Prediction)

  const LEVELS: seq<string> := ["Low", "Medium", "High"]

  /** `['Low', 'Medium', 'High'].includes(v)`: only one of these exact strings. */
  predicate IsLevel(v: JsonValue)
    ensures IsLevel(v) <==> v == Str("Low") || v == Str("Medium") || v == Str("High")
  {
    v.Str? && v.s in LEVELS
  }

  /** The assignment of line 115: an unrecognised level becomes "Medium". */
  function NormalizeLevel(p: Prediction): (q: Prediction)
    ensures IsLevel(q.level)
    ensures IsLevel(p.level) ==> q == p
    ensures !IsLevel(p.level) ==> q.level == Str("Medium")
    ensures q.visitorCount == p.visitorCount && q.recommendation == p.recommendation
  {
    if IsLevel(p.level) then p else p.(level := Str("Medium"))
  }

  /** Normalising twice is normalising once. */
  lemma NormalizeLevelIdempotent(p: Prediction)
    ensures NormalizeLevel(NormalizeLevel(p)) == NormalizeLevel(p)
  {
  }

  /** `predictRushHour`: the parsed object with its level normalised, or the
      "invalid data format" error when parsing fails or the parsed value is
      not an object (reading `level` of `null`, or assigning it on a
      primitive in strict mode, throws inside the `try`). */
  function PredictRushHour(reply: Reply, parse: string -> ParsedCrowd): (r: Outcome<Prediction>)
    ensures reply.Rejected? ==> r == Threw(BackendError)
    ensures reply.NoText? ==> r == Threw(TypeError)
    ensures reply.Text? ==> (r.Returned? <==> parse(Trim(reply.text)).JsonObject?)
    ensures reply.Text? && r.Threw? ==> r == Threw(Raised(INVALID_CROWD))
    ensures r.Returned? ==> IsLevel(r.value.level)
    ensures r.Returned? ==>
      var p := parse(Trim(reply.text)).fields;
      && r.value.visitorCount == p.visitorCount
      && r.value.recommendation == p.recommendation
      && (IsLevel(p.level) ==> r.value.level == p.level)
      && (!IsLevel(p.level) ==> r.value.level == Str("Medium"))
  {
    match reply
    case Rejected => Threw(BackendError)
    case NoText => Threw(TypeError)
    case Text(t) =>
      match parse(Trim(t))
      case JsonObject(p) => Returned(NormalizeLevel(p))
      case _ => Threw(Raised(INVALID_CROWD))
  }

  /** The level check is case-sensitive: "high" is not high, it becomes "Medium". */
  lemma LowerCaseLevelBecomesMedium(p: Prediction)
    requires p.level == Str("high")
    ensures NormalizeLevel(p).level == Str("Medium")
  {
    assert "high" != "Low" && "high" != "Medium" && "high" != "High";
  }

  // ----------------------------------------------------- createChatSession

  /** A chat session, bound at creation to its system instruction. */
  datatype ChatSession = ChatSession(systemInstruction: string)

  const GUIDE_INTRO: string := "You are a friendly and knowledgeable AI tour guide specializing in Indian heritage sites. "
  const GUIDE_RULES: string := "Answer questions concisely and engagingly. Do not make up facts."

  /** The part of a focused instruction in front of the monument's name. */
  const FOCUS_HEAD: string := GUIDE_INTRO + "You are currently helping a visitor at "

  /** The instruction of a session focused on one monument: the name sits
      right after the fixed head, and the text is longer than the general one. */
  function FocusedInstruction(monumentName: string): (r: string)
    ensures |FOCUS_HEAD| + |monumentName| <= |r|
    ensures r[|FOCUS_HEAD|..|FOCUS_HEAD| + |monumentName|] == monumentName
    ensures |r| > |GENERAL_INSTRUCTION|
  {
    var r := FOCUS_HEAD + monumentName + ". " + GUIDE_RULES;
    assert r[|FOCUS_HEAD|..|FOCUS_HEAD| + |monumentName|] == monumentName;
    r
  }

  /** The instruction of a session with no focus. */
  const GENERAL_INSTRUCTION: string := GUIDE_INTRO + GUIDE_RULES

  /** `monumentName` is truthy: present and not the empty string. */
  predicate Truthy(monumentName: Option<string>) {
    monumentName.Some? && monumentName.value != ""
  }

  /** `createChatSession`: focused on the monument exactly when its name is
      truthy, and then naming it; the general guide otherwise. */
  function CreateChatSession(monumentName: Option<string>): (session: ChatSession)
    ensures Truthy(monumentName) ==> session.systemInstruction == FocusedInstruction(monumentName.value)
    ensures !Truthy(monumentName) ==> session.systemInstruction == GENERAL_INSTRUCTION
  {
    ChatSession(if Truthy(monumentName) then FocusedInstruction(monumentName.value) else GENERAL_INSTRUCTION)
  }

  /** The focused instruction names its monument, never reads as the general
      one, and tells distinct monuments apart. */
  lemma FocusedInstructionFacts(a: string, b: string)
    ensures Includes(FocusedInstruction(a), a)
    ensures FocusedInstruction(a) != GENERAL_INSTRUCTION
    ensures FocusedInstruction(a) == FocusedInstruction(b) ==> a == b
  {
    assert OccursAt(FocusedInstruction(a), a, |FOCUS_HEAD|);
    if FocusedInstruction(a) == FocusedInstruction(b) {
      assert |a| == |b| by {
        assert FocusedInstruction(a) == FOCUS_HEAD + a + ". " + GUIDE_RULES;
        assert FocusedInstruction(b) == FOCUS_HEAD + b + ". " + GUIDE_RULES;
      }
    }
  }

  /** Sessions created for different truthy names have different instructions. */
  lemma SessionsTellMonumentsApart(a: Option<string>, b: Option<string>)
    requires Truthy(a) && Truthy(b) && a != b
    ensures CreateChatSession(a) != CreateChatSession(b)
  {
    FocusedInstructionFacts(a.value, b.value);
  }

  // ---------------------------------------------------- streamChatResponse

  /** What `sendMessageStream` delivered: chunks until completion, or chunks
      until a failure (a failure before any chunk is `FailsAfter([])`). */
  datatype Stream = Completes(chunks: seq<string>) | FailsAfter(chunks: seq<string>)

  /** `streamChatResponse`: the chunks handed to `onChunk`, in order. Every
      received chunk is relayed in arrival order; a failure adds exactly one
      apology chunk, and nothing is ever thrown. */
  method StreamChatResponse(stream: Stream) returns (emitted: seq<string>)
    ensures emitted == Relayed(stream)
    ensures |emitted| == |stream.chunks| + (if stream.FailsAfter? then 1 else 0)
    ensures emitted[..|stream.chunks|] == stream.chunks
    ensures stream.FailsAfter? ==> emitted[|stream.chunks|] == APOLOGY
  {
    emitted := [];
    for i := 0 to |stream.chunks|
      invariant emitted == stream.chunks[..i]
    {
      emitted := emitted + [stream.chunks[i]];
    }
    if stream.FailsAfter? {
      emitted := emitted + [APOLOGY];
    }
  }

  /** The chunks a relay of `stream` hands on: the received ones, then the
      apology when the stream failed. */
  function Relayed(stream: Stream): (r: seq<string>)
    ensures |r| == |stream.chunks| + (if stream.FailsAfter? then 1 else 0)
    ensures r[..|stream.chunks|] == stream.chunks
    ensures stream.FailsAfter? ==> r[|stream.chunks|] == APOLOGY
  {
    stream.chunks + (if stream.FailsAfter? then [APOLOGY] else [])
  }
}
