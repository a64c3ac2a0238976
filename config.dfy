/** The settings of config.py that the document processor and the chat manager read. */
module Config {

  /** Upload extensions accepted by validation, lower case with their leading dot. */
  const ALLOWED_EXTENSIONS: seq<string> := [".pdf", ".txt"]

  /** Upload size ceiling in bytes (5 MiB); a file of exactly this size is accepted. */
  const MAX_FILE_SIZE: nat := 5 * 1024 * 1024

  /** Number of chunks the retriever returns per question. */
  const VECTOR_STORE_SIMILARITY_SEARCH_K: nat := 3

  /** The embedding model, instantiated once at import; opaque here. */
  datatype EmbeddingModel = OpenAIEmbeddings

  /** The hosted chat model, instantiated once at import with its sampling temperature. */
  datatype ChatModel = ChatOpenAI(temperature: real)

  const EMBEDDING_MODEL: EmbeddingModel := OpenAIEmbeddings
  const CHAT_MODEL: ChatModel := ChatOpenAI(0.7)
}
