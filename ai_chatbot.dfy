/**
 * The chat log of `components/AiChatbot.tsx`: a greeting on every change
 * of monument, a single send in flight at a time, and the streamed reply
 * growing the one bot message whose timestamp is the reply's id.
 */
module AiChatbot {
  import opened Types
  import opened JsText
  import opened GeminiService

  // ------------------------------------------------------------ greeting

  const GREETING_HEAD: string := "Hello! I'm your AI guide"
  const FOCUSED_GREETING: string := ". How can I help you with your visit to "
  const GENERAL_GREETING: string := " for Indian heritage sites. Ask me anything!"

  /** The first bot message: it names the monument, right after the fixed
      opening, when there is one. */
  function Greeting(current: Option<Monument>): (g: string)
    ensures |GREETING_HEAD| <= |g| && g[..|GREETING_HEAD|] == GREETING_HEAD
    ensures current.Some? ==>
      var at := |GREETING_HEAD + FOCUSED_GREETING|;
      at + |current.value.name| <= |g| && g[at..at + |current.value.name|] == current.value.name
  {
    if current.Some? then
      var g := GREETING_HEAD + FOCUSED_GREETING + current.value.name + "?";
      assert g[|GREETING_HEAD + FOCUSED_GREETING|..|GREETING_HEAD + FOCUSED_GREETING| + |current.value.name|]
          == current.value.name;
      g
    else GREETING_HEAD + GENERAL_GREETING
  }

  /** The greeting tells "a monument" apart from "none", names the monument,
      and tells two monument names apart. */
  lemma GreetingFacts(m: Monument, n: Monument)
    ensures Greeting(Some(m)) != Greeting(None)
    ensures Includes(Greeting(Some(m)), m.name)
    ensures Greeting(Some(m)) == Greeting(Some(n)) ==> m.name == n.name
  {
    var head := GREETING_HEAD + FOCUSED_GREETING;
    var g := Greeting(Some(m));
    assert g == GREETING_HEAD + (FOCUSED_GREETING + m.name + "?");
    assert g[|GREETING_HEAD|] == FOCUSED_GREETING[0];
    assert Greeting(None)[|GREETING_HEAD|] == GENERAL_GREETING[0];
    assert g == head + m.name + "?";
    assert g[|head|..|head| + |m.name|] == m.name;
    assert OccursAt(g, m.name, |head|);
    if g == Greeting(Some(n)) {
      assert |m.name| == |n.name|;
      assert Greeting(Some(n))[|head|..|head| + |n.name|] == n.name;
    }
  }

  /** `currentMonument?.name`. */
  function NameOf(current: Option<Monument>): (name: Option<string>)
    ensures name.Some? <==> current.Some?
    ensures current.Some? ==> name.value == current.value.name
  {
    if current.Some? then Some(current.value.name) else None
  }

  // ------------------------------------------------------- quick actions

  const DEFAULT_SUBJECT: string := "the Taj Mahal"

  /** The suggested questions; the first asks about the current monument,
      or about the Taj Mahal when there is none or its name is empty. */
  function QuickActions(current: Option<Monument>): (r: seq<string>)
    ensures |r| == 4
    ensures Truthy(NameOf(current)) ==> r[0] == "Tell me about " + current.value.name
    ensures !Truthy(NameOf(current)) ==> r[0] == "Tell me about " + DEFAULT_SUBJECT
  {
    var subject := if Truthy(NameOf(current)) then current.value.name else DEFAULT_SUBJECT;
    ["Tell me about " + subject, "Best time to visit?", "What are the entry fees?", "Nearby attractions?"]
  }

  /** A text that starts with a non-blank character survives trimming. */
  lemma NotBlankWhenFirstIsNot(s: string)
    requires s != [] && !IsWhitespace(s[0])
    ensures Trim(s) != []
  {
  }

  /** Every quick action is a non-blank text, so clicking one is refused
      only by a missing session or a reply still in flight. */
  lemma QuickActionsAreNotBlank(current: Option<Monument>)
    ensures forall i :: 0 <= i < |QuickActions(current)| ==> Trim(QuickActions(current)[i]) != []
  {
    var r := QuickActions(current);
    forall i | 0 <= i < |r| ensures Trim(r[i]) != [] {
      assert r[i][0] in "TBWN";
      NotBlankWhenFirstIsNot(r[i]);
    }
  }

  // ------------------------------------------------------ reply growth

  /** The id of the bot placeholder of a send made at clock reading `now`. */
  function BotMessageId(now: nat): (id: string)
    ensures |id| > 4 && id[..4] == "bot-" && id[4..] == NumberToString(now)
  {
    "bot-" + NumberToString(now)
  }

  /** Sends at different clock readings get different ids. */
  lemma BotMessageIdsDiffer(a: nat, b: nat)
    requires a != b
    ensures BotMessageId(a) != BotMessageId(b)
  {
    if BotMessageId(a) == BotMessageId(b) {
      assert NumberToString(a) == BotMessageId(a)[4..];
      NumberToStringInjective(a, b);
    }
  }

  /** One message after a chunk for `id`: its text grows only if it is `id`'s. */
  function Grow(m: ChatMessage, id: string, chunk: string): (r: ChatMessage)
    ensures r.sender == m.sender && r.timestamp == m.timestamp
    ensures r.text == if m.timestamp == id then m.text + chunk else m.text
  {
    if m.timestamp == id then m.(text := m.text + chunk) else m
  }

  /** The `prev.map(...)` of one chunk. */
  function GrowMatching(ms: seq<ChatMessage>, id: string, chunk: string): (r: seq<ChatMessage>)
    ensures |r| == |ms|
    ensures forall i :: 0 <= i < |ms| ==> r[i] == Grow(ms[i], id, chunk)
  {
    if ms == [] then [] else [Grow(ms[0], id, chunk)] + GrowMatching(ms[1..], id, chunk)
  }

  /** A chunk changes only the text of the messages with timestamp `id`;
      their sender and timestamp stay. */
  lemma GrowMatchingTouchesOnlyId(ms: seq<ChatMessage>, id: string, chunk: string)
    ensures forall i :: 0 <= i < |ms| && ms[i].timestamp != id ==> GrowMatching(ms, id, chunk)[i] == ms[i]
    ensures forall i :: 0 <= i < |ms| && ms[i].timestamp == id ==>
      GrowMatching(ms, id, chunk)[i] == ChatMessage(ms[i].sender, ms[i].text + chunk, id)
  {
  }

  /** An empty chunk changes nothing. */
  lemma GrowMatchingEmpty(ms: seq<ChatMessage>, id: string)
    ensures GrowMatching(ms, id, "") == ms
  {
    var r := GrowMatching(ms, id, "");
    forall i | 0 <= i < |ms| ensures r[i] == ms[i] {
      assert ms[i].text + "" == ms[i].text;
    }
  }

  /** Two chunks in a row grow the messages as their concatenation does. */
  lemma GrowMatchingCompose(ms: seq<ChatMessage>, id: string, a: string, b: string)
    ensures GrowMatching(GrowMatching(ms, id, a), id, b) == GrowMatching(ms, id, a + b)
  {
    var l := GrowMatching(GrowMatching(ms, id, a), id, b);
    var r := GrowMatching(ms, id, a + b);
    forall i | 0 <= i < |ms| ensures l[i] == r[i] {
      assert ms[i].text + a + b == ms[i].text + (a + b);
    }
  }

  /** The concatenation of chunks, in order. */
  function Concat(chunks: seq<string>): (r: string)
    ensures chunks == [] ==> r == ""
    ensures |chunks| == 1 ==> r == chunks[0]
  {
    if chunks == [] then "" else Concat(chunks[..|chunks| - 1]) + chunks[|chunks| - 1]
  }

  /** Concatenating a split sequence of chunks is concatenating each part. */
  lemma {:induction false} ConcatAppend(a: seq<string>, b: seq<string>)
    ensures Concat(a + b) == Concat(a) + Concat(b)
    decreases |b|
  {
    if b == [] {
      assert a + b == a;
    } else {
      var b' := b[..|b| - 1];
      assert (a + b)[..|a + b| - 1] == a + b';
      ConcatAppend(a, b');
    }
  }

  /** Growing a fresh placeholder: when no older message and not the user
      message carry the id, the placeholder alone receives the text. */
  lemma GrowFreshPlaceholder(ms: seq<ChatMessage>, user: ChatMessage, id: string, t: string)
    requires forall i :: 0 <= i < |ms| ==> ms[i].timestamp != id
    requires user.timestamp != id
    ensures GrowMatching(ms + [user, ChatMessage(Bot, "", id)], id, t)
         == ms + [user, ChatMessage(Bot, t, id)]
  {
    var s := ms + [user, ChatMessage(Bot, "", id)];
    var r := GrowMatching(s, id, t);
    forall i | 0 <= i < |s| ensures r[i] == (ms + [user, ChatMessage(Bot, t, id)])[i] {
      if i == |ms| + 1 {
        assert "" + t == t;
      }
    }
  }

  // -------------------------------------------------------------- state

  /** `messageText || userInput`: the argument when it is a non-empty
      string, the input box otherwise. */
  function TextToSend(messageText: Option<string>, userInput: string): (text: string)
    ensures messageText.Some? && messageText.value != "" ==> text == messageText.value
    ensures messageText.None? || messageText.value == "" ==> text == userInput
  {
    if Truthy(messageText) then messageText.value else userInput
  }

  /** The state of the chat panel. */
  class Chatbot {
    var session: Option<ChatSession>
    var messages: seq<ChatMessage>
    var userInput: string
    var isLoading: bool

    /** A send of `text` passes the guard. */
    predicate CanSend(text: string)
      reads this
      ensures CanSend(text) <==> !AllWhitespace(text) && session.Some? && !isLoading
    {
      Trim(text) != [] && session.Some? && !isLoading
    }

    /** The quick actions are offered while the log holds at most the greeting. */
    predicate QuickActionsVisible()
      reads this
      ensures QuickActionsVisible() <==> messages == [] || |messages| == 1
    {
      |messages| <= 1
    }

    constructor()
      ensures session == None && messages == [] && userInput == "" && !isLoading
    {
      session := None;
      messages := [];
      userInput := "";
      isLoading := false;
    }

    /** `initChat`, run on every change of monument: the log becomes the one
        greeting (stamped `isoNow`), and a new session for the monument's
        name replaces the old one. The input and the loading flag stay. */
    method InitChat(current: Option<Monument>, isoNow: string)
      modifies this
      ensures messages == [ChatMessage(Bot, Greeting(current), isoNow)]
      ensures session == Some(CreateChatSession(NameOf(current)))
      ensures userInput == old(userInput) && isLoading == old(isLoading)
      ensures QuickActionsVisible()
    {
      messages := [ChatMessage(Bot, Greeting(current), isoNow)];
      session := Some(CreateChatSession(NameOf(current)));
    }

    /** Typing into the input. */
    method SetUserInput(text: string)
      modifies this
      ensures userInput == text
      ensures session == old(session) && messages == old(messages) && isLoading == old(isLoading)
    {
      userInput := text;
    }

    /** The synchronous part of `handleSendMessage`: the guard, then the user
        message and an empty bot placeholder with id `bot-<now>` appended,
        the input cleared and the loading flag set. A refused send changes
        nothing. */
    method BeginSend(messageText: Option<string>, isoNow: string, now: nat)
      returns (accepted: bool, text: string, botId: string)
      modifies this
      ensures text == TextToSend(messageText, old(userInput)) && botId == BotMessageId(now)
      ensures accepted <==> old(CanSend(text))
      ensures !accepted ==>
        messages == old(messages) && userInput == old(userInput) && isLoading == old(isLoading)
      ensures accepted ==>
        && messages == old(messages) + [ChatMessage(User, text, isoNow), ChatMessage(Bot, "", botId)]
        && userInput == "" && isLoading && !QuickActionsVisible()
      ensures session == old(session)
    {
      text := TextToSend(messageText, userInput);
      botId := BotMessageId(now);
      accepted := CanSend(text);
      if !accepted {
        return;
      }
      messages := messages + [ChatMessage(User, text, isoNow)];
      userInput := "";
      isLoading := true;
      messages := messages + [ChatMessage(Bot, "", botId)];
    }

    /** `onChunk`: the chunk is appended to the message whose timestamp is `botId`. */
    method ReceiveChunk(botId: string, chunk: string)
      modifies this
      ensures messages == GrowMatching(old(messages), botId, chunk)
      ensures session == old(session) && userInput == old(userInput) && isLoading == old(isLoading)
    {
      messages := GrowMatching(messages, botId, chunk);
    }

    /** The relay has returned: the panel accepts input again. */
    method FinishSend()
      modifies this
      ensures !isLoading
      ensures session == old(session) && messages == old(messages) && userInput == old(userInput)
    {
      isLoading := false;
    }

    /** `handleSendMessage` run to its end against the reply `stream`: after
        an accepted send the placeholder holds the relayed chunks in order,
        apology included, and loading is over. */
    method SendMessage(messageText: Option<string>, isoNow: string, now: nat, stream: Stream)
      returns (accepted: bool)
      modifies this
      ensures accepted <==> old(CanSend(TextToSend(messageText, userInput)))
      ensures !accepted ==>
        messages == old(messages) && userInput == old(userInput) && isLoading == old(isLoading)
      ensures accepted ==>
        && messages == GrowMatching(
             old(messages) + [ChatMessage(User, TextToSend(messageText, old(userInput)), isoNow),
                              ChatMessage(Bot, "", BotMessageId(now))],
             BotMessageId(now), Concat(Relayed(stream)))
        && userInput == "" && !isLoading
      ensures accepted && isoNow != BotMessageId(now) &&
              (forall i :: 0 <= i < |old(messages)| ==> old(messages)[i].timestamp != BotMessageId(now)) ==>
        messages == old(messages) + [ChatMessage(User, TextToSend(messageText, old(userInput)), isoNow),
                                     ChatMessage(Bot, Concat(Relayed(stream)), BotMessageId(now))]
      ensures session == old(session)
    {
      var text, botId;
      accepted, text, botId := BeginSend(messageText, isoNow, now);
      if !accepted {
        return;
      }
      ghost var base := messages;
      var emitted := StreamChatResponse(stream);
      GrowMatchingEmpty(base, botId);
      for i := 0 to |emitted|
        invariant messages == GrowMatching(base, botId, Concat(emitted[..i]))
        invariant session == old(session) && userInput == "" && isLoading
      {
        ReceiveChunk(botId, emitted[i]);
        GrowMatchingCompose(base, botId, Concat(emitted[..i]), emitted[i]);
        assert emitted[..i + 1][..i] == emitted[..i];
      }
      assert emitted[..|emitted|] == emitted;
      FinishSend();
      if isoNow != botId && forall i :: 0 <= i < |old(messages)| ==> old(messages)[i].timestamp != botId {
        GrowFreshPlaceholder(old(messages), ChatMessage(User, text, isoNow), botId, Concat(emitted));
      }
    }
  }

  /** The concatenation of a relayed reply: the received chunks, then the
      apology when the stream failed. */
  lemma ConcatRelayed(stream: Stream)
    ensures stream.Completes? ==> Concat(Relayed(stream)) == Concat(stream.chunks)
    ensures stream.FailsAfter? ==> Concat(Relayed(stream)) == Concat(stream.chunks) + APOLOGY
  {
    if stream.Completes? {
      assert Relayed(stream) == stream.chunks;
    } else {
      var r := Relayed(stream);
      assert r[..|r| - 1] == stream.chunks;
    }
  }
}
