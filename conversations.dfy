/** The server's conversation log and the conversion of a client-supplied
    chat history into LangChain message objects. */
module Conversations {
  import opened Common

  /** `{ role, content }` as exchanged between client and server. */
  datatype Message = Message(role: string, content: string)

  /** The three LangChain message classes the server builds. */
  datatype LangChainMessage =
    | SystemMessage(content: string)
    | HumanMessage(content: string)
    | AIMessage(content: string)

  /** One history entry as LangChain sees it: `system` and `assistant` keep
      their kind, `user` and every unknown role become a human message. */
  function ToLangChain(msg: Message): (r: LangChainMessage)
    ensures r.content == msg.content
    ensures RoleOf(r) == if msg.role == "system" || msg.role == "assistant" then msg.role else "user"
  {
    if msg.role == "system" then SystemMessage(msg.content)
    else if msg.role == "user" then HumanMessage(msg.content)
    else if msg.role == "assistant" then AIMessage(msg.content)
    else HumanMessage(msg.content)
  }

  /** `convertToLangChainMessages(history)`: one message per entry, in order,
      with the same content; the kind follows the role. */
  function ConvertToLangChainMessages(history: seq<Message>): (r: seq<LangChainMessage>)
    ensures |r| == |history|
    ensures forall i :: 0 <= i < |r| ==> r[i].content == history[i].content
    ensures forall i :: 0 <= i < |r| ==> (r[i].SystemMessage? <==> history[i].role == "system")
    ensures forall i :: 0 <= i < |r| ==> (r[i].AIMessage? <==> history[i].role == "assistant")
    ensures forall i :: 0 <= i < |r| ==>
      (r[i].HumanMessage? <==> history[i].role != "system" && history[i].role != "assistant")
  {
    if history == [] then []
    else [ToLangChain(history[0])] + ConvertToLangChainMessages(history[1..])
  }

  /** The role a LangChain message stands for. */
  function RoleOf(m: LangChainMessage): string {
    match m
    case SystemMessage(_) => "system"
    case HumanMessage(_) => "user"
    case AIMessage(_) => "assistant"
  }

  predicate KnownRoles(history: seq<Message>) {
    forall i :: 0 <= i < |history| ==> history[i].role in {"system", "user", "assistant"}
  }

  /** Reading the roles back from the converted messages. */
  function FromLangChain(ms: seq<LangChainMessage>): seq<Message> {
    if ms == [] then [] else [Message(RoleOf(ms[0]), ms[0].content)] + FromLangChain(ms[1..])
  }

  /** With only the three known roles, the conversion loses nothing: reading
      the roles back gives the original history. */
  lemma {:induction false} ConvertRoundTrip(history: seq<Message>)
    requires KnownRoles(history)
    ensures FromLangChain(ConvertToLangChainMessages(history)) == history
  {
    if history != [] {
      assert KnownRoles(history[1..]) by {
        forall i | 0 <= i < |history[1..]| ensures history[1..][i].role in {"system", "user", "assistant"} {
          assert history[1..][i] == history[i + 1];
        }
      }
      ConvertRoundTrip(history[1..]);
      assert history[0].role in {"system", "user", "assistant"};
    }
  }

  /** Converting a concatenation converts each part in place. */
  lemma {:induction false} ConvertConcat(a: seq<Message>, b: seq<Message>)
    ensures ConvertToLangChainMessages(a + b) == ConvertToLangChainMessages(a) + ConvertToLangChainMessages(b)
  {
    if a == [] {
      assert a + b == b;
    } else {
      assert (a + b)[1..] == a[1..] + b;
      ConvertConcat(a[1..], b);
    }
  }

  // ---------------------------------------------------------------------
  // The conversation store

  type Store = map<string, seq<Message>>

  /** `conversations.get(id) || []`: an unseen id reads as an empty log. */
  function Lookup(store: Store, id: string): (h: seq<Message>)
    ensures id in store ==> h == store[id]
    ensures id !in store ==> h == []
  {
    if id in store then store[id] else []
  }

  /** The store once a chat on `id` has been logged: that id's log gains the
      user message and then the assistant reply; every other log is as it
      was. */
  function Recorded(store: Store, id: string, message: string, reply: string): (r: Store)
    ensures Lookup(r, id) == Lookup(store, id) + [Message("user", message), Message("assistant", reply)]
    ensures forall k :: k != id ==> Lookup(r, k) == Lookup(store, k)
    ensures r.Keys == store.Keys + {id}
  {
    store[id := Lookup(store, id) + [Message("user", message), Message("assistant", reply)]]
  }

  /** A log made of exchanges: user, assistant, user, assistant, ... */
  predicate Alternating(h: seq<Message>) {
    && |h| % 2 == 0
    && forall i :: 0 <= i < |h| ==> h[i].role == (if i % 2 == 0 then "user" else "assistant")
  }

  predicate AllAlternating(store: Store) {
    forall id :: id in store ==> Alternating(store[id])
  }

  /** One more exchange at the end of a log of exchanges. */
  lemma AlternatingExtend(h: seq<Message>, message: string, reply: string)
    requires Alternating(h)
    ensures Alternating(h + [Message("user", message), Message("assistant", reply)])
  {
    var h' := h + [Message("user", message), Message("assistant", reply)];
    forall i | 0 <= i < |h'| ensures h'[i].role == (if i % 2 == 0 then "user" else "assistant") {
      if i < |h| {
        assert h'[i] == h[i];
      }
    }
  }

  /** Logging an exchange keeps every log a sequence of exchanges. */
  lemma RecordedKeepsAlternating(store: Store, id: string, message: string, reply: string)
    requires AllAlternating(store)
    ensures AllAlternating(Recorded(store, id, message, reply))
  {
    var r := Recorded(store, id, message, reply);
    AlternatingExtend(Lookup(store, id), message, reply);
    forall k | k in r ensures Alternating(r[k]) {
      assert r[k] == Lookup(r, k);
    }
  }

  /** A stored log, sent back as chat history, reaches the model as human and
      AI messages taking turns. */
  lemma StoredLogConverts(h: seq<Message>)
    requires Alternating(h)
    ensures forall i :: 0 <= i < |h| ==>
      ConvertToLangChainMessages(h)[i] ==
        (if i % 2 == 0 then HumanMessage(h[i].content) else AIMessage(h[i].content))
  {
  }

  /** What `/api/chat` answers. */
  datatype ChatResponse =
    | Reply(message: string, role: string)   // 200 with `{ message, role: 'assistant' }`
    | BadRequest(error: string)              // 400
    | ServerError(error: string)             // 500

  /** The in-memory `conversations` map of the server. */
  class ConversationStore {
    var conversations: Store

    /** Every log is a sequence of user/assistant exchanges. */
    predicate Valid()
      reads this
    {
      AllAlternating(conversations)
    }

    constructor()
      ensures conversations == map[]
      ensures Valid()
    {
      conversations := map[];
    }

    /** Log one exchange on `id`. */
    method Append(id: string, message: string, reply: string)
      requires Valid()
      modifies this
      ensures conversations == Recorded(old(conversations), id, message, reply)
      ensures Valid()
    {
      var conversation := Lookup(conversations, id);
      conversation := conversation + [Message("user", message), Message("assistant", reply)];
      conversations := conversations[id := conversation];
      RecordedKeepsAlternating(old(conversations), id, message, reply);
    }

    /** `POST /api/chat`. A missing or empty message is refused. Otherwise the
        model's reply (`agentReply`, which stands for the LangChain call made
        with the client's history) is returned, and logged under the
        conversation id when one is given; a failed call is reported and
        nothing is logged. */
    method Chat(conversationId: Option<string>, message: Option<string>, agentReply: Result<string>)
      returns (response: ChatResponse)
      requires Valid()
      modifies this
      ensures Valid()
      ensures !Truthy(message) ==>
        response == BadRequest("Message is required") && conversations == old(conversations)
      ensures Truthy(message) && agentReply.Err? ==>
        response == ServerError("Failed to get response from AI agent: " + agentReply.message)
        && conversations == old(conversations)
      ensures Truthy(message) && agentReply.Ok? ==> response == Reply(agentReply.value, "assistant")
      ensures Truthy(message) && agentReply.Ok? && Truthy(conversationId) ==>
        conversations == Recorded(old(conversations), conversationId.value, message.value, agentReply.value)
      ensures Truthy(message) && agentReply.Ok? && !Truthy(conversationId) ==>
        conversations == old(conversations)
    {
      if !Truthy(message) {
        return BadRequest("Message is required");
      }
      match agentReply {
        case Err(e) =>
          return ServerError("Failed to get response from AI agent: " + e);
        case Ok(reply) =>
          if Truthy(conversationId) {
            Append(conversationId.value, message.value, reply);
          }
          response := Reply(reply, "assistant");
      }
    }

    /** `GET /api/conversation/:id`. */
    method GetConversation(id: string) returns (history: seq<Message>)
      requires Valid()
      ensures history == Lookup(conversations, id)
      ensures Alternating(history)
    {
      history := Lookup(conversations, id);
    }
  }
}
