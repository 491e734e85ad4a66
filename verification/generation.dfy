/** Grounded prompt assembly and the answer policy (`generate_response`).

    The generation model is an opaque service from a prompt to either the
    generated text or a failure (any exception while building the model,
    calling it or reading `response.text`). That the service is not called
    at all is stated as: the answer is the same whatever the service does. */
module Generation {
  import opened PyText

  datatype GenerationOutcome = Generated(text: string) | GenerationFailed

  type GenerationService = string -> GenerationOutcome

  /** Returned when retrieval produced no passage. */
  const NoInformationMessage := "I couldn't find relevant information in the school handbook to answer your question. Please try rephrasing your question or contact the school administration directly."

  /** Returned when the generation service fails. */
  const ApologyMessage := "I apologize, but I'm having trouble generating a response right now. Please try again later or contact the school directly."

  /** A prompt template: the role framing put before the context, the label
      put before the question, and the instructions put after it. */
  datatype PromptTemplate = PromptTemplate(header: string, questionLabel: string, instructions: string)

  /** The handbook assistant's template. */
  const HandbookTemplate := PromptTemplate(
    "You are a helpful assistant for Pathways Academy. Use the following information from the school handbook to answer the student's question accurately and helpfully.\n\nCONTEXT FROM SCHOOL HANDBOOK:\n",
    "\n\nSTUDENT QUESTION: ",
    "\n\nINSTRUCTIONS:\n"
    + "- Answer based primarily on the provided context from the school handbook\n"
    + "- Be clear, helpful, and student-friendly\n"
    + "- If the context doesn't fully answer the question, mention what information is available and suggest contacting school administration for additional details\n"
    + "- Use a warm, supportive tone appropriate for students and parents\n"
    + "- Structure your response clearly with headings or bullet points when appropriate\n"
    + "\nANSWER:")

  const SourceSeparator := "\n\n"

  /** The label put in front of passage number `k` (numbered from 1). */
  function SourceLabel(k: nat): string
  {
    "Source " + DecimalString(k) + ":\n"
  }

  /** The labelled passages, in the order retrieval returned them. */
  function SourceBlocks(chunks: seq<string>): (blocks: seq<string>)
    ensures |blocks| == |chunks|
  {
    seq(|chunks|, i requires 0 <= i < |chunks| => SourceLabel(i + 1) + chunks[i])
  }

  /** The context string: the labelled passages joined by blank lines. It
      is empty exactly when there is no passage, and otherwise opens with
      the first passage under the label "Source 1:". */
  function Context(chunks: seq<string>): (c: string)
    ensures c == [] <==> chunks == []
    ensures chunks != [] ==> SourceLabel(1) + chunks[0] <= c
  {
    var blocks := SourceBlocks(chunks);
    assert chunks != [] ==> blocks[0] == SourceLabel(1) + chunks[0];
    Join(SourceSeparator, blocks)
  }

  /** Where the block of passage `j` begins in the context. */
  function SourceStart(chunks: seq<string>, j: nat): nat
    requires j < |chunks|
  {
    PieceStart(SourceSeparator, SourceBlocks(chunks), j)
  }

  /** The template filled with a context and a question. */
  function Fill(t: PromptTemplate, context: string, question: string): string
  {
    t.header + context + t.questionLabel + question + t.instructions
  }

  /** The prompt `generate_response` sends. */
  function Prompt(question: string, chunks: seq<string>): string
  {
    Fill(HandbookTemplate, Context(chunks), question)
  }

  /** `generate_response(user_question, relevant_chunks)`. */
  function GenerateResponse(question: string, chunks: seq<string>, generate: GenerationService): string
  {
    if chunks == [] then NoInformationMessage
    else match generate(Prompt(question, chunks))
      case Generated(text) => text
      case GenerationFailed => ApologyMessage
  }

  // ---------------------------------------------------------------------
  // Properties of the context and the prompt

  /** Passage `j` appears in the context verbatim, right after the label
      "Source j+1:" and a newline. */
  lemma ContextCitesSource(chunks: seq<string>, j: nat)
    requires j < |chunks|
    ensures var at := SourceStart(chunks, j) + |SourceLabel(j + 1)|;
            at + |chunks[j]| <= |Context(chunks)|
            && Context(chunks)[SourceStart(chunks, j)..at] == SourceLabel(j + 1)
            && Context(chunks)[at..at + |chunks[j]|] == chunks[j]
  {
    var blocks := SourceBlocks(chunks);
    var c := Context(chunks);
    var at := SourceStart(chunks, j);
    var tag := SourceLabel(j + 1);
    var block := blocks[j];
    JoinPiece(SourceSeparator, blocks, j);
    assert block == tag + chunks[j];
    assert block[..|tag|] == tag && block[|tag|..] == chunks[j];
    SliceOfSlice(c, at, block, 0, |tag|);
    SliceOfSlice(c, at, block, |tag|, |chunks[j]|);
  }

  /** Consecutive source blocks are separated by exactly one blank line, and
      the last block ends the context, so the blocks and separators make up
      the whole context. */
  lemma ContextBlocksTile(chunks: seq<string>, j: nat)
    requires j < |chunks|
    ensures var end := SourceStart(chunks, j) + |SourceLabel(j + 1)| + |chunks[j]|;
            (j + 1 == |chunks| ==> end == |Context(chunks)|)
            && (j + 1 < |chunks| ==>
                  SourceStart(chunks, j + 1) == end + |SourceSeparator|
                  && SourceStart(chunks, j + 1) <= |Context(chunks)|
                  && Context(chunks)[end..SourceStart(chunks, j + 1)] == SourceSeparator)
  {
    var blocks := SourceBlocks(chunks);
    assert blocks[j] == SourceLabel(j + 1) + chunks[j];
    JoinPiece(SourceSeparator, blocks, j);
    if j + 1 < |chunks| {
      JoinSeparator(SourceSeparator, blocks, j);
    }
  }

  /** The source numbers in the labels are 1, 2, ... in order, and each
      can be read back from its label. */
  lemma SourceLabelNumber(k: nat)
    ensures var tag := SourceLabel(k);
            var digits := tag[7..|tag| - 2];
            |tag| >= 10 && tag[..7] == "Source " && tag[|tag| - 2..] == ":\n"
            && AllDigits(digits) && ParseDecimal(digits) == k
  {
    var tag := SourceLabel(k);
    assert tag[7..|tag| - 2] == DecimalString(k);
    DecimalRoundTrip(k);
  }

  /** A filled template is the header, the context, the question label,
      the question verbatim, and the instructions, in that order. */
  lemma FillLayout(t: PromptTemplate, context: string, question: string)
    ensures var p := Fill(t, context, question);
            var q := |t.header| + |context| + |t.questionLabel|;
            |p| == q + |question| + |t.instructions|
            && p[..|t.header|] == t.header
            && p[|t.header|..|t.header| + |context|] == context
            && p[|t.header| + |context|..q] == t.questionLabel
            && p[q..q + |question|] == question
            && p[q + |question|..] == t.instructions
  {
    var a := t.header + context;
    var b := a + t.questionLabel;
    var d := b + question;
    assert Fill(t, context, question) == d + t.instructions;
    assert a[..|t.header|] == t.header;
    assert a[|t.header|..] == context;
    assert b[..|a|] == a;
    assert d[..|b|] == b;
  }

  /** Every retrieved passage reaches the model: passage `j` sits verbatim in
      the filled template, after its label, inside the context section. */
  lemma FillCitesEverySource(t: PromptTemplate, question: string, chunks: seq<string>, j: nat)
    requires j < |chunks|
    ensures var at := |t.header| + SourceStart(chunks, j) + |SourceLabel(j + 1)|;
            at + |chunks[j]| <= |t.header| + |Context(chunks)|
            && Fill(t, Context(chunks), question)[at..at + |chunks[j]|] == chunks[j]
  {
    var c := Context(chunks);
    var p := Fill(t, c, question);
    ContextCitesSource(chunks, j);
    FillLayout(t, c, question);
    assert p[|t.header|..|t.header| + |c|] == c;
    SliceOfSlice(p, |t.header|, c, SourceStart(chunks, j) + |SourceLabel(j + 1)|, |chunks[j]|);
  }

  /** The prompt `generate_response` sends carries every passage verbatim
      after its label, and the question verbatim after the question label. */
  lemma PromptCitesSourcesAndQuestion(question: string, chunks: seq<string>, j: nat)
    requires j < |chunks|
    ensures var t := HandbookTemplate;
            var p := Prompt(question, chunks);
            var at := |t.header| + SourceStart(chunks, j) + |SourceLabel(j + 1)|;
            var q := |t.header| + |Context(chunks)| + |t.questionLabel|;
            at + |chunks[j]| <= |t.header| + |Context(chunks)|
            && p[at..at + |chunks[j]|] == chunks[j]
            && q + |question| <= |p|
            && p[q..q + |question|] == question
  {
    FillCitesEverySource(HandbookTemplate, question, chunks, j);
    FillLayout(HandbookTemplate, Context(chunks), question);
  }

  // ---------------------------------------------------------------------
  // The answer policy

  /** With no passage the fixed message is returned and the service is not
      called: the answer is the same whatever the service would do. */
  lemma NoChunksSkipsGeneration(question: string, generate: GenerationService, other: GenerationService)
    ensures GenerateResponse(question, [], generate) == NoInformationMessage
    ensures GenerateResponse(question, [], generate) == GenerateResponse(question, [], other)
  {
  }

  /** With passages, the service is asked about this prompt only; its text
      is returned verbatim, and any failure becomes the fixed apology. */
  lemma AnswerPolicy(question: string, chunks: seq<string>, generate: GenerationService, other: GenerationService)
    requires chunks != []
    ensures generate(Prompt(question, chunks)).Generated? ==>
              GenerateResponse(question, chunks, generate) == generate(Prompt(question, chunks)).text
    ensures generate(Prompt(question, chunks)).GenerationFailed? ==>
              GenerateResponse(question, chunks, generate) == ApologyMessage
    ensures generate(Prompt(question, chunks)) == other(Prompt(question, chunks)) ==>
              GenerateResponse(question, chunks, generate) == GenerateResponse(question, chunks, other)
  {
  }

  /** The answer is always the fixed no-information message, the fixed
      apology, or a text the service generated; no raw error escapes. */
  lemma AnswerIsNeverRawError(question: string, chunks: seq<string>, generate: GenerationService)
    ensures var a := GenerateResponse(question, chunks, generate);
            a == NoInformationMessage || a == ApologyMessage
            || generate(Prompt(question, chunks)) == Generated(a)
  {
  }
}
