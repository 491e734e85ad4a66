/** The question-answering request (`ask_question`) without its web
    plumbing: read and strip the question, reject an empty one, retrieve the
    top 3 passages, generate the answer, and record how many sources were
    used. */
module Pipeline {
  import opened Wrappers
  import opened PyText
  import opened Retrieval
  import opened Generation

  /** The number of passages the request asks retrieval for. */
  const TopK := 3

  const EmptyQuestionError := "Please enter a question"
  const InternalError := "An error occurred while processing your question"

  /** The `question` member of the JSON body. */
  datatype Field = Absent | Str(text: string) | NotAString

  /** The parsed JSON body: an object, or anything `.get` fails on. */
  datatype RequestBody = NotAnObject | Object(question: Field)

  /** The chat-history record of one answered question (its timestamp is
      not modelled). */
  datatype HistoryEntry = HistoryEntry(question: string, response: string, sourcesUsed: nat)

  datatype AskReply<D> =
    | BadRequest(error: string)
    | ServerError(error: string)
    | Answered(response: string, sourcesInfo: seq<ChunkInfo<D>>, entry: HistoryEntry)

  /** `data.get('question', '').strip()`; None when that raises (the body is
      not an object, or the member is not a string). */
  function QuestionOf(body: RequestBody): Option<string>
  {
    match body
    case NotAnObject => None
    case Object(Absent) => Some(Strip(""))
    case Object(Str(text)) => Some(Strip(text))
    case Object(NotAString) => None
  }

  /** What `ask_question` answers for a request body. */
  function Ask<D>(store: Store, body: RequestBody, search: SearchService<D>, generate: GenerationService): AskReply<D>
  {
    match QuestionOf(body)
    case None => ServerError(InternalError)
    case Some(question) =>
      if question == [] then BadRequest(EmptyQuestionError)
      else
        var retrieved := Retrieve(store, question, TopK, search);
        var response := GenerateResponse(question, retrieved.texts, generate);
        Answered(response, retrieved.info, HistoryEntry(question, response, |retrieved.texts|))
  }

  /** `ask_question`: validation, retrieval feeding generation, and the
      history record. */
  method AskQuestion<D>(store: Store, body: RequestBody, search: SearchService<D>, generate: GenerationService)
    returns (reply: AskReply<D>)
    ensures reply == Ask(store, body, search, generate)
  {
    var question: string;
    match body {
      case NotAnObject =>
        return ServerError(InternalError);
      case Object(field) =>
        match field {
          case NotAString =>
            return ServerError(InternalError);
          case Absent =>
            question := Strip("");
          case Str(text) =>
            question := Strip(text);
        }
    }
    assert QuestionOf(body) == Some(question);
    if question == [] {
      return BadRequest(EmptyQuestionError);
    }
    var relevantChunks, chunkInfo := RetrieveRelevantChunks(store, question, TopK, search);
    var response := GenerateResponse(question, relevantChunks, generate);
    reply := Answered(response, chunkInfo, HistoryEntry(question, response, |relevantChunks|));
  }

  // ---------------------------------------------------------------------
  // Properties of a request

  /** A request is rejected as empty exactly when its question is missing or
      all whitespace; a malformed body is an internal error; in both cases
      neither service is consulted. */
  lemma AskValidation<D>(store: Store, body: RequestBody, search: SearchService<D>, generate: GenerationService,
                         otherSearch: SearchService<D>, otherGenerate: GenerationService)
    ensures Ask(store, body, search, generate).BadRequest? <==>
              body.Object? && (body.question.Absent? || (body.question.Str? && AllSpace(body.question.text)))
    ensures Ask(store, body, search, generate).ServerError? <==> (body.NotAnObject? || body.question.NotAString?)
    ensures !Ask(store, body, search, generate).Answered? ==>
              Ask(store, body, search, generate) == Ask(store, body, otherSearch, otherGenerate)
  {
    if body.Object? && body.question.Str? {
      StripEmptyIffBlank(body.question.text);
    }
  }

  /** The search service is asked for the stripped question and 3 results
      only: two services that agree there give the same reply. */
  lemma AskQueriesTopThree<D>(store: Store, body: RequestBody, search: SearchService<D>, other: SearchService<D>,
                              generate: GenerationService)
    ensures QuestionOf(body).Some? && search(QuestionOf(body).value, 3) == other(QuestionOf(body).value, 3) ==>
              Ask(store, body, search, generate) == Ask(store, body, other, generate)
  {
  }

  /** An answered request uses the retrieved passages for its answer and
      shows their info as sources; the history entry records the stripped
      question, the same response, and as many sources as were shown. */
  lemma AskRecordsSources<D>(store: Store, body: RequestBody, search: SearchService<D>, generate: GenerationService)
    ensures var reply := Ask(store, body, search, generate);
            reply.Answered? ==>
            var question := QuestionOf(body).value;
            var retrieved := Retrieve(store, question, TopK, search);
            question != []
            && reply.sourcesInfo == retrieved.info
            && reply.response == GenerateResponse(question, retrieved.texts, generate)
            && reply.entry == HistoryEntry(question, reply.response, |reply.sourcesInfo|)
  {
    if QuestionOf(body).Some? {
      RetrieveAligned(store, QuestionOf(body).value, TopK, search);
    }
  }

  /** When the index returns at most `top_k` results, at most 3 sources are
      used. */
  lemma AskAtMostThreeSources<D>(store: Store, body: RequestBody, search: SearchService<D>, generate: GenerationService)
    ensures var reply := Ask(store, body, search, generate);
            reply.Answered? && (var found := search(QuestionOf(body).value, TopK); found.Found? ==> |found.hits| <= TopK)
            ==> reply.entry.sourcesUsed <= TopK
  {
    if QuestionOf(body).Some? {
      RetrieveAligned(store, QuestionOf(body).value, TopK, search);
    }
  }

  /** An unready store or a failed embedding/search gives the fixed
      no-information answer with no sources, whatever the generation service
      would do. */
  lemma AskWithoutPassages<D>(store: Store, body: RequestBody, search: SearchService<D>, generate: GenerationService)
    requires QuestionOf(body).Some? && QuestionOf(body).value != []
    requires !Ready(store) || search(QuestionOf(body).value, TopK).SearchFailed?
    ensures Ask(store, body, search, generate)
            == Answered(NoInformationMessage, [], HistoryEntry(QuestionOf(body).value, NoInformationMessage, 0))
  {
  }
}
