/**
  The chat manager (utils/chat_manager.py): a vector store and a retrieval
  chain that are absent until a document has been indexed, and the pairing of
  chat history into (question, answer) tuples.

  FAISS, the embedding model, the chat model and the chain's remote call are
  foreign: the store is whatever `fromDocuments` builds, and a chain is the
  record of what it was built from, invoked through `call`.
*/
module ChatManagement {
  import opened Wrappers
  import opened Config

  /** A text chunk produced by the splitter. */
  datatype Document = Document(pageContent: string, metadata: map<string, string>)

  /** An opaque FAISS index. */
  datatype VectorStore = FaissIndex(handle: nat)

  /** `store.as_retriever(search_kwargs={"k": k})`. */
  datatype Retriever = Retriever(store: VectorStore, k: nat)

  /** `ConversationalRetrievalChain.from_llm(llm=..., retriever=...)`. */
  datatype Chain = ConversationalRetrievalChain(llm: ChatModel, retriever: Retriever)

  /** The dictionary the chain is called with. */
  datatype ChainInput = ChainInput(question: string, chatHistory: seq<(string, string)>)

  /** Why `get_response` raises. */
  datatype ChatError =
    | NotInitialized                // the ValueError of the guard
    | ChainFailed(message: string)  // an exception from the chain call, propagated
    | MissingAnswer                 // the KeyError of `result["answer"]`

  const NOT_INITIALIZED_MESSAGE: string := "Chat chain not initialized. Please process a document first."

  /** The text of the ValueError for an uninitialised manager. */
  function ChatErrorMessage(e: ChatError): (m: string)
    ensures e.NotInitialized? ==> m == "Chat chain not initialized. Please process a document first."
    ensures e.ChainFailed? ==> m == e.message
  {
    match e
    case NotInitialized => NOT_INITIALIZED_MESSAGE
    case ChainFailed(msg) => msg
    case MissingAnswer => "'answer'"
  }

  /** The chain that `initialize_vector_store` builds over a store: the configured chat model, retrieving k = 3 chunks from that store. */
  function ChainOver(store: VectorStore): (c: Chain)
    ensures c.retriever.store == store
    ensures c.retriever.k == 3 && c.llm == CHAT_MODEL
  {
    ConversationalRetrievalChain(CHAT_MODEL, Retriever(store, VECTOR_STORE_SIMILARITY_SEARCH_K))
  }

  /** `result["answer"]` for the outcome of a chain call. */
  function AnswerOf(outcome: Result<map<string, string>, string>): (r: Result<string, ChatError>)
    ensures r.Success? <==> outcome.Success? && "answer" in outcome.value
    ensures r.Success? ==> r.value == outcome.value["answer"]
    ensures outcome.Failure? ==> r == Failure(ChainFailed(outcome.error))
    ensures r.Failure? ==> r.error != NotInitialized
  {
    match outcome
    case Failure(e) => Failure(ChainFailed(e))
    case Success(result) => if "answer" in result then Success(result["answer"]) else Failure(MissingAnswer)
  }

  /** A history entry carries both keys that the pairing reads. */
  predicate HasTurnKeys(m: map<string, string>) {
    "user" in m && "assistant" in m
  }

  /** The key a KeyError names for an entry: `m["user"]` is evaluated first. */
  function MissingTurnKey(m: map<string, string>): string {
    if "user" !in m then "user" else "assistant"
  }

  class ChatManager {
    var vectorStore: Option<VectorStore>
    var chatChain: Option<Chain>

    /** Either nothing is set, or both are and the chain retrieves from the store. */
    ghost predicate Valid()
      reads this
    {
      (vectorStore.None? && chatChain.None?) ||
      (vectorStore.Some? && chatChain == Some(ChainOver(vectorStore.value)))
    }

    /** `__init__`: both fields unset. */
    constructor ()
      ensures Valid()
      ensures vectorStore == None && chatChain == None
    {
      vectorStore := None;
      chatChain := None;
    }

    /**
      `initialize_vector_store`: build the store from the documents with the
      configured embedding model, then the chain over it. Both fields are
      replaced wholesale; when building the store raises, nothing changes.
    */
    method InitializeVectorStore(documents: seq<Document>, fromDocuments: (seq<Document>, EmbeddingModel) -> Result<VectorStore, string>)
      returns (outcome: Result<(), string>)
      requires Valid()
      modifies this
      ensures Valid()
      ensures outcome.Failure? <==> fromDocuments(documents, EMBEDDING_MODEL).Failure?
      ensures match fromDocuments(documents, EMBEDDING_MODEL)
              case Success(store) => vectorStore == Some(store) && chatChain == Some(ChainOver(store))
              case Failure(e) => outcome == Failure(e) && vectorStore == old(vectorStore) && chatChain == old(chatChain)
    {
      match fromDocuments(documents, EMBEDDING_MODEL)
      case Failure(e) =>
        outcome := Failure(e);
      case Success(store) =>
        vectorStore := Some(store);
        chatChain := Some(ChainOver(store));
        outcome := Success(());
    }

    /**
      `get_response`: refuse before initialisation; otherwise call the chain
      with the question and history and return its "answer" entry.
    */
    method GetResponse(question: string, chatHistory: seq<(string, string)>, call: (Chain, ChainInput) -> Result<map<string, string>, string>)
      returns (r: Result<string, ChatError>)
      requires Valid()
      ensures chatChain.None? ==> r == Failure(NotInitialized)
      ensures chatChain.None? ==> ChatErrorMessage(r.error) == "Chat chain not initialized. Please process a document first."
      ensures chatChain.Some? ==> r == AnswerOf(call(chatChain.value, ChainInput(question, chatHistory)))
      ensures chatChain.Some? ==> r == AnswerOf(call(ChainOver(vectorStore.value), ChainInput(question, chatHistory)))
      ensures r == Failure(NotInitialized) <==> chatChain.None?
    {
      if chatChain.None? {
        return Failure(NotInitialized);
      }
      var result := call(chatChain.value, ChainInput(question, chatHistory));
      r := AnswerOf(result);
    }

    /**
      `format_chat_history`: one (user, assistant) pair per entry, in order;
      the first entry lacking a key raises a KeyError naming that key.
    */
    static function FormatChatHistory(messages: seq<map<string, string>>): (r: Result<seq<(string, string)>, string>)
      ensures r.Success? <==> forall i :: 0 <= i < |messages| ==> HasTurnKeys(messages[i])
      ensures r.Success? ==> |r.value| == |messages|
      ensures r.Success? ==> forall i :: 0 <= i < |messages| ==> r.value[i] == (messages[i]["user"], messages[i]["assistant"])
      ensures r.Failure? ==> (exists i :: 0 <= i < |messages| && !HasTurnKeys(messages[i]) &&
                                          (forall j :: 0 <= j < i ==> HasTurnKeys(messages[j])) &&
                                          r.error == MissingTurnKey(messages[i]))
    {
      if messages == [] then Success([])
      else if !HasTurnKeys(messages[0]) then Failure(MissingTurnKey(messages[0]))
      else
        match FormatChatHistory(messages[1..])
        case Failure(key) =>
          ghost var i' :| 0 <= i' < |messages[1..]| && !HasTurnKeys(messages[1..][i']) &&
            (forall j :: 0 <= j < i' ==> HasTurnKeys(messages[1..][j])) && key == MissingTurnKey(messages[1..][i']);
          assert !HasTurnKeys(messages[i' + 1]);
          Failure(key)
        case Success(rest) =>
          Success([(messages[0]["user"], messages[0]["assistant"])] + rest)
    }
  }

  /**
    The entries the application appends have only "role" and "content", so
    pairing them gets through only when the history is empty.
  */
  lemma {:induction false} RoleContentHistory(messages: seq<map<string, string>>)
    requires forall i :: 0 <= i < |messages| ==> messages[i].Keys == {"role", "content"}
    ensures ChatManager.FormatChatHistory(messages) ==
      if messages == [] then Success([]) else Failure("user")
  {
    if messages != [] {
      assert "user" !in messages[0].Keys;
    }
  }

  /**
    A new manager refuses to answer; once a store has been built, the guard
    no longer fires and the answer comes from the chain over that store.
  */
  method IndexThenAsk(documents: seq<Document>, fromDocuments: (seq<Document>, EmbeddingModel) -> Result<VectorStore, string>,
                      question: string, chatHistory: seq<(string, string)>, call: (Chain, ChainInput) -> Result<map<string, string>, string>)
    returns (before: Result<string, ChatError>, after: Result<string, ChatError>)
    ensures before == Failure(NotInitialized)
    ensures fromDocuments(documents, EMBEDDING_MODEL).Failure? ==> after == Failure(NotInitialized)
    ensures fromDocuments(documents, EMBEDDING_MODEL).Success? ==>
      after != Failure(NotInitialized) &&
      after == AnswerOf(call(ChainOver(fromDocuments(documents, EMBEDDING_MODEL).value), ChainInput(question, chatHistory)))
  {
    var manager := new ChatManager();
    before := manager.GetResponse(question, chatHistory, call);
    var _ := manager.InitializeVectorStore(documents, fromDocuments);
    after := manager.GetResponse(question, chatHistory, call);
  }

  /**
    The entries the application keeps: a "role" of "user" or "assistant" and
    the turn's "content", the roles alternating from "user".
  */
  predicate IsRoleContentHistory(messages: seq<map<string, string>>) {
    forall i :: 0 <= i < |messages| ==>
      "role" in messages[i] && "content" in messages[i] &&
      messages[i]["role"] == (if i % 2 == 0 then "user" else "assistant")
  }

  /**
    The pairing the chain evidently expects from those entries: each user
    turn with the assistant turn after it, an unanswered last turn left out.
  */
  function PairTurns(messages: seq<map<string, string>>): (r: seq<(string, string)>)
    requires forall i :: 0 <= i < |messages| ==> "content" in messages[i]
    ensures |r| == |messages| / 2
    ensures forall k :: 0 <= k < |r| ==> r[k] == (messages[2 * k]["content"], messages[2 * k + 1]["content"])
  {
    if |messages| < 2 then []
    else [(messages[0]["content"], messages[1]["content"])] + PairTurns(messages[2..])
  }

  /**
    At the second question the application pairs the first exchange: the
    as-written pairing raises KeyError "user", the intended one yields the
    exchange.
  */
  lemma SecondQuestionHistory(q1: string, a1: string, q2: string)
    ensures var messages := [map["role" := "user", "content" := q1],
                             map["role" := "assistant", "content" := a1],
                             map["role" := "user", "content" := q2]];
      IsRoleContentHistory(messages) &&
      ChatManager.FormatChatHistory(messages[..|messages| - 1]) == Failure("user") &&
      PairTurns(messages[..|messages| - 1]) == [(q1, a1)]
  {
    var messages := [map["role" := "user", "content" := q1],
                     map["role" := "assistant", "content" := a1],
                     map["role" := "user", "content" := q2]];
    var history := messages[..|messages| - 1];
    assert history[0].Keys == {"role", "content"} && history[1].Keys == {"role", "content"};
    RoleContentHistory(history);
  }
}
