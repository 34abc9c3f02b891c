/** One question, end to end: its documents are loaded and measured, the
    task prompt is built, the model under test answers within what is left
    of the context window, and the judge grades the answer. Whatever is
    raised on the way becomes an ERROR record. */
module Tasks {
  import opened Base
  import opened Text
  import opened Utils
  import opened Grader
  import opened Records
  import opened Loaders

  /** `int(128000 * 0.9)`: the double nearest to the product is exactly
      115200. */
  const DefaultContextLength := 115200
  const DefaultRetries := 3
  const DefaultJudgeModelId := "doubao-seed-1-8-251228"

  /** `s.join(parts)` for a separator of any length. */
  function JoinWith(parts: seq<string>, sep: string): string {
    if |parts| == 0 then ""
    else if |parts| == 1 then parts[0]
    else parts[0] + sep + JoinWith(parts[1..], sep)
  }

  /** `sum(len(encoder.encode(d)) for d in docs)`: the first document the
      tokenizer refuses raises its error. */
  function DocTokens(docs: seq<string>, count: Tokenizer): Result<nat>
    decreases |docs|
  {
    if |docs| == 0 then Success(0)
    else
      var n :- count(docs[0]);
      var rest :- DocTokens(docs[1..], count);
      Success(n + rest)
  }

  /** Document `i` (from 0) as the prompt frames it, numbered from 1. */
  function DocumentBlock(i: nat, d: string): string {
    "BEGIN DOCUMENT " + NatToString(i + 1) + ":\n" + d + "\nEND DOCUMENT " + NatToString(i + 1)
  }

  function DocumentsText(docs: seq<string>): string {
    JoinWith(seq(|docs|, i requires 0 <= i < |docs| => DocumentBlock(i, docs[i])), "\n\n")
  }

  const PromptHead := "BEGIN INPUT DOCUMENTS\n\n"
  const PromptMiddle := "\n\nEND INPUT DOCUMENTS\n\n"
    + "Answer the following question using the input documents provided above.\n\n"
    + "START QUESTION\n\n"
  const PromptTail := "\n\nEND QUESTION\n"

  /** The task prompt: the framed documents, then the question. */
  function TaskPrompt(docs: seq<string>, question: string): string {
    PromptHead + DocumentsText(docs) + PromptMiddle + question + PromptTail
  }

  /** The completion ceiling for a prompt of `promptTokens` tokens. */
  function CompletionCeiling(maxTokens: int, contextLength: int, promptTokens: int): int {
    Min(maxTokens, Max(0, contextLength - promptTokens))
  }

  /** A positive ceiling keeps prompt and answer inside the context window
      and under the model's own limit; the ceiling is not positive exactly
      when the model allows no tokens or the prompt already fills the
      window. Where it is positive the judge's ceiling formula gives the
      same number. */
  lemma CeilingFits(maxTokens: int, contextLength: int, promptTokens: int)
    ensures var m := CompletionCeiling(maxTokens, contextLength, promptTokens);
      && (m > 0 ==> m <= maxTokens && promptTokens + m <= contextLength)
      && (m <= 0 <==> maxTokens <= 0 || promptTokens >= contextLength)
      && (m > 0 ==> JudgeMaxTokens(maxTokens, contextLength, promptTokens) == m)
  {
  }

  // ---------------------------------------------------------------------
  // process_one_question

  /** The record every outcome starts from. */
  function BaseRecord(row: Row): ResultRecord {
    ResultRecord(
      Strip(RowText(row, "question_id", "")),
      Strip(RowText(row, "question", "")),
      Strip(RowText(row, "answer", "")),
      "", "SKIPPED", 0, 0, NoExtra)
  }

  function DocsSkipReason(sum: nat, contextLength: int): string {
    "docs_tokens_sum(" + NatToString(sum) + ") > context_length(" + IntToString(contextLength) + ")"
  }

  function PromptSkipReason(promptTokens: nat, contextLength: int): string {
    "prompt_tokens(" + NatToString(promptTokens) + ") >= context_length(" + IntToString(contextLength) + ")"
  }

  /** The documents of a row, loaded as the row names them. */
  function RowDocuments(row: Row, read: DocReader): Result<seq<string>> {
    DocumentSet(Strip(RowText(row, "document_category", "")),
                Strip(RowText(row, "document_set_id", "")),
                RowFilenames(row), read)
  }

  /** The body of the `try` block; a failure is what it raises. */
  function TaskBody(row: Row, modelCfg: ModelConfig, judgeCfg: ModelConfig, count: Tokenizer,
                    read: DocReader, contextLength: int, retries: int, complete: Completer)
    : (r: Result<ResultRecord>)
    ensures r.Success? ==> var base := BaseRecord(row);
      && r.value.questionId == base.questionId && r.value.question == base.question
      && r.value.goldAnswer == base.goldAnswer
      && ((r.value == base.(extra := r.value.extra) && r.value.extra.SkippedReason?)
          || (r.value.extra.NoExtra? && IsVerdict(r.value.judgeResult)))
  {
    var base := BaseRecord(row);
    var docs :- RowDocuments(row, read);
    var sum :- DocTokens(docs, count);
    if sum > contextLength then
      Success(base.(extra := SkippedReason(DocsSkipReason(sum, contextLength))))
    else
      var prompt := TaskPrompt(docs, base.question);
      var p :- count(prompt);
      var m := CompletionCeiling(modelCfg.maxTokens, contextLength, p);
      if m <= 0 then
        Success(base.(extra := SkippedReason(PromptSkipReason(p, contextLength))))
      else
        var c :- complete(modelCfg, prompt, m, retries);
        var g :- GradeAnswer(base.question, base.goldAnswer, c.content, judgeCfg, count,
                             contextLength, retries, complete);
        Success(base.(llmAnswer := c.content, judgeResult := g.0,
                      promptToken := c.usage.promptTokens, completionToken := c.usage.completionTokens))
  }

  /** `process_one_question`: never raises; the record names the
      question, and its verdict says which way it went. */
  function ProcessOneQuestion(row: Row, modelCfg: ModelConfig, judgeCfg: ModelConfig, count: Tokenizer,
                              read: DocReader, contextLength: int, retries: int, complete: Completer)
    : (r: ResultRecord)
    ensures var base := BaseRecord(row);
      && r.questionId == base.questionId && r.question == base.question && r.goldAnswer == base.goldAnswer
    ensures r.judgeResult == "SKIPPED" <==> r.extra.SkippedReason?
    ensures r.judgeResult == "ERROR" <==> r.extra.ErrorText?
    ensures r.judgeResult == "SKIPPED" || r.judgeResult == "ERROR" || IsVerdict(r.judgeResult)
    ensures r.judgeResult == "SKIPPED" || r.judgeResult == "ERROR" ==>
      r.llmAnswer == "" && r.promptToken == 0 && r.completionToken == 0
  {
    match TaskBody(row, modelCfg, judgeCfg, count, read, contextLength, retries, complete)
    case Success(rec) => rec
    case Failure(e) => BaseRecord(row).(judgeResult := "ERROR", extra := ErrorText(e.typeName + ": " + e.message))
  }

  /** What is raised is recorded as "Type: message" on the starting record. */
  lemma ErrorRecord(row: Row, modelCfg: ModelConfig, judgeCfg: ModelConfig, count: Tokenizer,
                    read: DocReader, contextLength: int, retries: int, complete: Completer)
    ensures var body := TaskBody(row, modelCfg, judgeCfg, count, read, contextLength, retries, complete);
      var r := ProcessOneQuestion(row, modelCfg, judgeCfg, count, read, contextLength, retries, complete);
      body.Failure? <==> r.judgeResult == "ERROR"
    ensures var body := TaskBody(row, modelCfg, judgeCfg, count, read, contextLength, retries, complete);
      body.Failure? ==>
        ProcessOneQuestion(row, modelCfg, judgeCfg, count, read, contextLength, retries, complete)
        == BaseRecord(row).(judgeResult := "ERROR", extra := ErrorText(body.error.typeName + ": " + body.error.message))
  {
  }

  /** Documents over the budget skip the question before any prompt is
      built or any model is called; documents within it never give that
      skip. */
  lemma DocsOverBudget(row: Row, modelCfg: ModelConfig, judgeCfg: ModelConfig, count: Tokenizer,
                       read: DocReader, contextLength: int, retries: int, complete: Completer,
                       docs: seq<string>, sum: nat)
    requires RowDocuments(row, read) == Success(docs)
    requires DocTokens(docs, count) == Success(sum)
    ensures sum > contextLength ==>
      ProcessOneQuestion(row, modelCfg, judgeCfg, count, read, contextLength, retries, complete)
        == BaseRecord(row).(extra := SkippedReason(DocsSkipReason(sum, contextLength)))
    ensures sum <= contextLength ==>
      ProcessOneQuestion(row, modelCfg, judgeCfg, count, read, contextLength, retries, complete).extra
        != SkippedReason(DocsSkipReason(sum, contextLength))
  {
    if sum <= contextLength {
      var r := ProcessOneQuestion(row, modelCfg, judgeCfg, count, read, contextLength, retries, complete);
      if r.extra.SkippedReason? {
        var p := count(TaskPrompt(docs, BaseRecord(row).question)).value;
        assert r.extra.reason == PromptSkipReason(p, contextLength);
        assert r.extra.reason[0] == 'p' && DocsSkipReason(sum, contextLength)[0] == 'd';
      }
    }
  }

  /** A skipped question was decided without a model: any other model
      would have skipped it the same way. */
  lemma SkipCallsNoModel(row: Row, modelCfg: ModelConfig, judgeCfg: ModelConfig, count: Tokenizer,
                         read: DocReader, contextLength: int, retries: int,
                         complete: Completer, other: Completer)
    requires ProcessOneQuestion(row, modelCfg, judgeCfg, count, read, contextLength, retries, complete)
             .judgeResult == "SKIPPED"
    ensures ProcessOneQuestion(row, modelCfg, judgeCfg, count, read, contextLength, retries, other)
         == ProcessOneQuestion(row, modelCfg, judgeCfg, count, read, contextLength, retries, complete)
  {
    var docs := RowDocuments(row, read).value;
    var sum := DocTokens(docs, count).value;
    if sum <= contextLength {
      var p := count(TaskPrompt(docs, BaseRecord(row).question)).value;
      var m := CompletionCeiling(modelCfg.maxTokens, contextLength, p);
      if m > 0 {
        assert false;
      }
    }
  }

  /** A graded record comes from one call to the model under test, made
      for documents within the budget, with the task prompt and the
      ceiling `min(max_tokens, max(0, context - prompt))`, which is
      positive and keeps prompt and answer inside the context window; the
      record carries that call's answer and token usage, and its verdict
      is the judge's grade of that answer. */
  lemma GradedRecord(row: Row, modelCfg: ModelConfig, judgeCfg: ModelConfig, count: Tokenizer,
                     read: DocReader, contextLength: int, retries: int, complete: Completer)
    requires IsVerdict(ProcessOneQuestion(row, modelCfg, judgeCfg, count, read, contextLength, retries, complete)
                       .judgeResult)
    ensures var r := ProcessOneQuestion(row, modelCfg, judgeCfg, count, read, contextLength, retries, complete);
      exists docs: seq<string>, sum: nat, p: nat ::
        && RowDocuments(row, read) == Success(docs)
        && DocTokens(docs, count) == Success(sum) && sum <= contextLength
        && count(TaskPrompt(docs, r.question)) == Success(p)
        && var m := CompletionCeiling(modelCfg.maxTokens, contextLength, p);
           && 1 <= m <= modelCfg.maxTokens && p + m <= contextLength
           && complete(modelCfg, TaskPrompt(docs, r.question), m, retries)
              == Success(Completion(r.llmAnswer, Usage(r.promptToken, r.completionToken)))
    ensures var r := ProcessOneQuestion(row, modelCfg, judgeCfg, count, read, contextLength, retries, complete);
      var g := GradeAnswer(r.question, r.goldAnswer, r.llmAnswer, judgeCfg, count, contextLength, retries, complete);
      g.Success? && g.value.0 == r.judgeResult
  {
    var r := ProcessOneQuestion(row, modelCfg, judgeCfg, count, read, contextLength, retries, complete);
    var docs := RowDocuments(row, read).value;
    var sum := DocTokens(docs, count).value;
    var prompt := TaskPrompt(docs, r.question);
    var p := count(prompt).value;
    var m := CompletionCeiling(modelCfg.maxTokens, contextLength, p);
    CeilingFits(modelCfg.maxTokens, contextLength, p);
    var c := complete(modelCfg, prompt, m, retries).value;
    assert c == Completion(r.llmAnswer, Usage(r.promptToken, r.completionToken));
  }

  /** For documents within the budget, the prompt-length skip happens
      exactly when the prompt alone fills the context window or the
      model's token limit is not positive. */
  lemma PromptSkipReasonHolds(row: Row, modelCfg: ModelConfig, judgeCfg: ModelConfig, count: Tokenizer,
                              read: DocReader, contextLength: int, retries: int, complete: Completer,
                              docs: seq<string>, sum: nat, p: nat)
    requires RowDocuments(row, read) == Success(docs)
    requires DocTokens(docs, count) == Success(sum) && sum <= contextLength
    requires count(TaskPrompt(docs, BaseRecord(row).question)) == Success(p)
    ensures ProcessOneQuestion(row, modelCfg, judgeCfg, count, read, contextLength, retries, complete).extra
            == SkippedReason(PromptSkipReason(p, contextLength))
        <==> p >= contextLength || modelCfg.maxTokens <= 0
  {
    CeilingFits(modelCfg.maxTokens, contextLength, p);
  }

  // ---------------------------------------------------------------------
  // The task prompt

  lemma JoinWithEmbeds(parts: seq<string>, sep: string, k: nat)
    requires k < |parts|
    ensures Contains(JoinWith(parts, sep), parts[k])
    decreases |parts|
  {
    if |parts| > 1 {
      var rest := JoinWith(parts[1..], sep);
      if k == 0 {
        ContainsMiddle("", parts[0], sep + rest);
        assert "" + parts[0] + (sep + rest) == parts[0] + sep + rest;
      } else {
        JoinWithEmbeds(parts[1..], sep, k - 1);
        ContainsIn(rest, parts[k], parts[0] + sep);
      }
    } else {
      ContainsMiddle("", parts[0], "");
      assert "" + parts[0] + "" == parts[0];
    }
  }

  lemma ContainsIn(t: string, p: string, a: string)
    requires Contains(t, p)
    ensures Contains(a + t, p)
  {
    var i :| 0 <= i <= |t| - |p| && OccursAt(t, p, i);
    assert (a + t)[|a| + i..|a| + i + |p|] == t[i..i + |p|];
    assert OccursAt(a + t, p, |a| + i);
  }

  lemma ContainsExtend(t: string, p: string, b: string)
    requires Contains(t, p)
    ensures Contains(t + b, p)
  {
    var i :| 0 <= i <= |t| - |p| && OccursAt(t, p, i);
    assert (t + b)[i..i + |p|] == t[i..i + |p|];
    assert OccursAt(t + b, p, i);
  }

  /** The prompt holds every document, framed and numbered, and the
      question. */
  lemma TaskPromptEmbeds(docs: seq<string>, question: string, k: nat)
    requires k < |docs|
    ensures Contains(TaskPrompt(docs, question), DocumentBlock(k, docs[k]))
    ensures Contains(TaskPrompt(docs, question), question)
  {
    var blocks := seq(|docs|, i requires 0 <= i < |docs| => DocumentBlock(i, docs[i]));
    var d := DocumentsText(docs);
    JoinWithEmbeds(blocks, "\n\n", k);
    assert TaskPrompt(docs, question) == PromptHead + d + (PromptMiddle + question + PromptTail);
    ContainsIn(d, blocks[k], PromptHead);
    ContainsExtend(PromptHead + d, blocks[k], PromptMiddle + question + PromptTail);
    assert TaskPrompt(docs, question) == (PromptHead + d + PromptMiddle) + question + PromptTail;
    ContainsMiddle(PromptHead + d + PromptMiddle, question, PromptTail);
  }
}
