# DocuBotAI upload validation and chat manager, modelled in Dafny

DocuBotAI is a Streamlit application that answers questions about an
uploaded PDF or text file. It validates the upload, extracts its text, splits
the text into chunks, indexes them in FAISS and answers questions through a
LangChain `ConversationalRetrievalChain`. This project models the two parts of
that pipeline that the repository itself implements:

- **Document processor** (`utils/document_processor.py`), in module
  `DocumentProcessor`. `validate_file` checks three things in order: the file
  is present, its byte length is at most `MAX_FILE_SIZE` (inclusive), and
  its lower-cased extension is allowed. `extract_text` dispatches on the same
  extension. `_extract_from_pdf` is a loop that appends each page's text and a
  newline. Module `OsPath` models `os.path.splitext` (the POSIX flavour: the
  extension starts at the last `.` of the base name, and leading dots do not
  count) and `str.lower`.
- **Chat manager** (`utils/chat_manager.py`), in module `ChatManagement`.
  Class `ChatManager` has two fields, `vectorStore` and `chatChain`.
  `InitializeVectorStore` replaces both, and `GetResponse` refuses to run
  before that. The static `FormatChatHistory` turns each history entry into a
  (user, assistant) pair.
- **Configuration** (`config.py`), in module `Config`: `ALLOWED_EXTENSIONS`,
  `MAX_FILE_SIZE`, `VECTOR_STORE_SIMILARITY_SEARCH_K`, and the two model
  objects as opaque values.

Exceptions the Python code raises are modelled as the `Failure` side of a
`Result`. `None` is modelled as `Option.None`.

Foreign calls are parameters:
- `readPdfPages` stands for `PdfReader(...).pages` and each page's `extract_text()`.
- `decodeUtf8` stands for `bytes.decode('utf-8')`.
- `fromDocuments` stands for `FAISS.from_documents`.
- `call` stands for invoking the chain.

Each of them returns a `Failure` carrying the exception's text where the
Python call would raise.

The model keeps to what the code does. In particular, it adds none of these
behaviours, which the code does not have:
- `process_text` does not reject empty text.
- `get_response` has no fallback for an empty answer.
- `format_chat_history` does not drop an odd trailing turn. It maps every
  entry and raises `KeyError` when a key is missing.
- `initialize_vector_store` takes no provider argument.

## Model

| member | source | states |
|---|---|---|
| `OsPath.SplitExt` | utils/document_processor.py:29 | root + ext is the whole path; ext is empty or runs from a `.` to the end with no further `.` or `/`; ext is non-empty exactly when the last `.` is in the base name and is preceded there by a non-dot character |
| `OsPath.Lower` | utils/document_processor.py:29 | same length; every character is ASCII-lower-cased position by position |
| `OsPath.RFind` | utils/document_processor.py:29 | the index found holds the character and no later index does; -1 when there is none |
| `DocumentProcessor.FileExtension` | utils/document_processor.py:29-37 | the lower-cased splitext suffix of the name, empty or starting with `.`; the same function serves validation (line 29) and dispatch (line 37); its other properties are stated by ExtensionShape and ExtensionIsLoweredTail rather than on the function, so that the contracts mentioning it stay cheap to verify |
| `DocumentProcessor.ExtensionShape` | utils/document_processor.py:29 | the lower-cased splitext suffix is non-empty exactly when the name has an extension; a non-empty one starts with `.` and holds no other `.` and no `/` |
| `DocumentProcessor.ExtensionIsLoweredTail` | utils/document_processor.py:29 | the extension is the tail of the name, lower-cased character by character |
| `DocumentProcessor.UnsupportedTypeMessage` | utils/document_processor.py:31 | the type message joins the allowed extensions: "Unsupported file type. Please upload: .pdf, .txt" |
| `DocumentProcessor.ValidateFile` | utils/document_processor.py:18-33 | `(true, "")` exactly when the file is present, at most MAX_FILE_SIZE bytes and its extension is allowed; a missing file gets "No file uploaded"; an oversized file gets the size message whatever its name; only then is the type checked |
| `DocumentProcessor.SizeBoundary` | utils/document_processor.py:24-26 | exactly 5 MiB passes the size check; one byte more gets the size message, whatever the name |
| `DocumentProcessor.AcceptedNames` | utils/document_processor.py:28-33 | `Report.PDF` and `a.b.txt` of allowed size are accepted with `(true, "")` |
| `DocumentProcessor.RefusedNames` | utils/document_processor.py:28-31 | `pdf` and `.pdf` of allowed size are refused with the type message |
| `DocumentProcessor.UpperCaseExtension` | utils/document_processor.py:29 | the extension of `Report.PDF` is `.pdf` |
| `DocumentProcessor.LastDotExtension` | utils/document_processor.py:29 | the extension of `a.b.txt` is `.txt` |
| `DocumentProcessor.LeadingDotNoExtension` | utils/document_processor.py:29 | `.pdf` has no extension |
| `DocumentProcessor.NoDotNoExtension` | utils/document_processor.py:29 | a name with no dot has no extension |
| `DocumentProcessor.ExtractText` | utils/document_processor.py:35-44 | `.pdf` yields the page text or the reader's error; `.txt` yields the decoded text or the decoder's error; any other extension yields UnsupportedFileType of that extension; a file that validation accepts never yields UnsupportedFileType; the ValueError text is "Unsupported file type: " followed by the extension |
| `DocumentProcessor.ExtractFromPdf` | utils/document_processor.py:46-51 | the loop's result is PdfText of the pages |
| `DocumentProcessor.PdfTextAppend` | utils/document_processor.py:48-51 | the text of two page runs is the concatenation of their texts |
| `DocumentProcessor.PdfTextSnoc` | utils/document_processor.py:50 | one more page appends that page and `\n` |
| `DocumentProcessor.PdfTextAtPage` | utils/document_processor.py:49-50 | page i and its `\n` come after all earlier pages and before all later ones |
| `DocumentProcessor.PdfTextLength` | utils/document_processor.py:48-51 | the length is the sum of the page lengths plus the page count |
| `DocumentProcessor.PdfTextEnds` | utils/document_processor.py:48-51 | zero pages give `""`; otherwise the text ends with `\n` |
| `ChatManagement.AnswerOf` | utils/chat_manager.py:27-28 | succeeds exactly when the call succeeded and its result has "answer", and then returns that entry; a failed call propagates |
| `ChatManagement.ChatManager.constructor` | utils/chat_manager.py:8-10 | both fields are unset |
| `ChatManagement.ChatManager.InitializeVectorStore` | utils/chat_manager.py:12-20 | on success the store is the one built from the documents with the embedding model and the chain is ChainOver of it (the configured chat model, retrieving k = 3 chunks from that store); when building raises, both fields keep their old values; Valid is kept |
| `ChatManagement.ChatManager.GetResponse` | utils/chat_manager.py:22-28 | uninitialised gives NotInitialized with the text "Chat chain not initialized. Please process a document first.", whatever the chain call would do; otherwise the "answer" of calling the stored chain, which is the chain over the stored index, with `{question, chat_history}`; NotInitialized comes exactly from an unset chain |
| `ChatManagement.ChatManager.FormatChatHistory` | utils/chat_manager.py:30-33 | succeeds exactly when every entry has "user" and "assistant"; then same length and element i is `(m[i]["user"], m[i]["assistant"])`; otherwise the KeyError names the missing key of the first bad entry |
| `ChatManagement.RoleContentHistory` | utils/chat_manager.py:33 | entries with only "role" and "content" (as the application builds them) pass only when the history is empty; otherwise KeyError "user" |
| `ChatManagement.SecondQuestionHistory` | utils/chat_manager.py:33 | the history the application passes at its second question (one exchange) makes the as-written pairing raise KeyError "user", while the intended pairing yields that exchange |
| `ChatManagement.PairTurns` | utils/chat_manager.py:31-33 | corrected pairing of role/content entries: half as many pairs as entries, pair k being the contents of entries 2k and 2k+1 |
| `ChatManagement.IndexThenAsk` | utils/chat_manager.py:8-28 | a new manager refuses; after a successful initialisation the guard no longer fires and the answer comes from the chain over the new store; after a failed one it still refuses |

## Findings

| source | as written | input that shows it | evidently intended | confidence | as-written member | corrected member |
|---|---|---|---|---|---|---|
| utils/chat_manager.py:33 | `format_chat_history` reads the keys "user" and "assistant", but the entries the application keeps (main.py:91, main.py:107) have only "role" and "content" | once the `provider=` TypeError at main.py:65-68 is removed, the second question passes `[{"role": "user", ...}, {"role": "assistant", ...}]` (main.py:100-102 passes `messages[:-1]`), which raises KeyError 'user', and main.py:110-115 would show "Error generating response: 'user'". In the shipped main.py, main() returns at line 72 whenever a file is uploaded, so the chat is never reached and the defect stays latent | pair each user turn's content with the following assistant turn's content | not executed; read from the code | `ChatManagement.RoleContentHistory`, `ChatManagement.SecondQuestionHistory` | `ChatManagement.PairTurns` |

`ChatManager.FormatChatHistory` stays as written, because it models the source.
`PairTurns` is the corrected pairing, proved on its own. `SecondQuestionHistory`
sets the two side by side.

## Left out

- The Streamlit shell (main.py): widgets, session state and rendering. main.py passes `provider=` to `initialize_vector_store`, which does not accept it; that call is not part of this model.
- PyPDF2 parsing, UTF-8 decoding, FAISS, the OpenAI embedding and chat models and the chain's remote call are foreign. They are parameters or opaque values: `readPdfPages`, `decodeUtf8`, `fromDocuments`, `call`, `VectorStore`.
- `process_text` and the `RecursiveCharacterTextSplitter` (chunk size 1000, overlap 200): a single call into a foreign library, so no chunking is modelled. Documents enter `InitializeVectorStore` as given values.
- ChatManagement.ChatManager.GetResponse: "never invokes the chain" is stated as the result being NotInitialized whatever `call` is; the model has no record of which calls happened.
- ChatManagement.ChatManager.InitializeVectorStore: `as_retriever` and `from_llm` are taken never to raise, so store and chain are always set together.
- OsPath.Lower: only ASCII letters are lower-cased. Python's full Unicode `str.lower` could change other characters of a rejected extension, and so the text of the ValueError. No other character lowers to `.`, `p`, `d`, `f`, `t` or `x`, so accept/reject verdicts are the same.
- OsPath.SplitExt: models the POSIX `os.path.splitext`. On Windows `\` is also a separator.
- `SIZE_LIMIT_MESSAGE` is the fixed text "File size exceeds 5.0MB limit". The source formats `MAX_FILE_SIZE/1024/1024` as a float, which is 5.0; float formatting is not modelled.
- `MAX_HISTORY_LENGTH` (config.py:17) is never read by the modelled code.
- Python truthiness: `if not self.chat_chain` is modelled as "the chain is unset". A set chain object is taken to be truthy.
