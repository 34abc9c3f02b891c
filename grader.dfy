/** The judge: a grading prompt, a bounded token ceiling for the judge
    call, and the normalisation of its free-text reply into a verdict. */
module Grader {
  import opened Base
  import opened Text
  import opened Utils

  /** The text the verdict is read from: `(text or "").strip().upper()`. */
  function JudgeText(text: Option<string>): string {
    Upper(Strip(text.GetOr("")))
  }

  predicate IsVerdict(v: string) {
    v == "CORRECT" || v == "INCORRECT" || v == "UNKNOWN"
  }

  /** `normalize_judge_result`: CORRECT only when INCORRECT is absent. */
  function NormalizeJudgeResult(text: Option<string>): (r: string)
    ensures IsVerdict(r)
    ensures text == None || text == Some("") ==> r == "UNKNOWN"
  {
    var t := JudgeText(text);
    if Contains(t, "CORRECT") && !Contains(t, "INCORRECT") then "CORRECT"
    else if Contains(t, "INCORRECT") then "INCORRECT"
    else "UNKNOWN"
  }

  /** The verdict, read off the raw reply: INCORRECT wins whenever it
      occurs, CORRECT needs INCORRECT to be absent, and otherwise the reply
      is UNKNOWN.  Only the upper-cased reply matters; trimming changes
      nothing because neither word starts or ends with whitespace. */
  lemma VerdictOfReply(reply: string)
    ensures var u := Upper(reply);
      && (NormalizeJudgeResult(Some(reply)) == "INCORRECT" <==> Contains(u, "INCORRECT"))
      && (NormalizeJudgeResult(Some(reply)) == "CORRECT" <==>
            Contains(u, "CORRECT") && !Contains(u, "INCORRECT"))
      && (NormalizeJudgeResult(Some(reply)) == "UNKNOWN" <==> !Contains(u, "CORRECT"))
  {
    var u := Upper(reply);
    var t := JudgeText(Some(reply));
    assert t == Strip(u) by {
      StripUpperCommute(reply);
    }
    var hasC := Contains(u, "CORRECT");
    var hasI := Contains(u, "INCORRECT");
    assert Contains(t, "CORRECT") == hasC by {
      ContainsStrip(u, "CORRECT");
    }
    assert Contains(t, "INCORRECT") == hasI by {
      ContainsStrip(u, "INCORRECT");
    }
    CorrectInsideIncorrect(u);
  }

  /** "CORRECT" is a substring of "INCORRECT". */
  lemma CorrectInsideIncorrect(t: string)
    ensures Contains(t, "INCORRECT") ==> Contains(t, "CORRECT")
  {
    if Contains(t, "INCORRECT") {
      assert "INCORRECT"[2..9] == "CORRECT";
      ContainsWithin(t, "INCORRECT", "CORRECT", 2);
    }
  }

  /** The verdict is case-insensitive. */
  lemma VerdictIgnoresCase(a: string, b: string)
    requires Upper(a) == Upper(b)
    ensures NormalizeJudgeResult(Some(a)) == NormalizeJudgeResult(Some(b))
  {
    VerdictOfReply(a);
    VerdictOfReply(b);
  }

  /** Leading and trailing whitespace do not change the verdict. */
  lemma VerdictIgnoresSurroundingSpace(lead: string, reply: string, trail: string)
    requires AllSpace(lead) && AllSpace(trail)
    ensures NormalizeJudgeResult(Some(lead + reply + trail)) == NormalizeJudgeResult(Some(reply))
  {
    var padded := lead + reply + trail;
    assert JudgeText(Some(padded)) == JudgeText(Some(reply)) by {
      StripIgnoresSurroundingSpace(lead, reply, trail);
    }
  }

  /** A reply that says "correct" and nowhere "incorrect" is judged
      CORRECT, in any letter case. */
  lemma WordMakesCorrect(a: string, b: string)
    requires !Contains(Upper(a + "correct" + b), "INCORRECT")
    ensures NormalizeJudgeResult(Some(a + "correct" + b)) == "CORRECT"
  {
    assert Upper("correct") == "CORRECT";
    UpperOccurs(a, "correct", b, "CORRECT");
    VerdictOfReply(a + "correct" + b);
  }

  /** Any reply with the word "incorrect" in it is judged INCORRECT, even
      one that also says "correct" ("correct, not incorrect"). */
  lemma WordMakesIncorrect(a: string, b: string)
    ensures NormalizeJudgeResult(Some(a + "incorrect" + b)) == "INCORRECT"
  {
    assert Upper("incorrect") == "INCORRECT";
    UpperOccurs(a, "incorrect", b, "INCORRECT");
    VerdictOfReply(a + "incorrect" + b);
  }

  /** A word in the reply shows up upper-cased in `Upper`. */
  lemma UpperOccurs(a: string, w: string, b: string, W: string)
    requires Upper(w) == W
    ensures Contains(Upper(a + w + b), W)
  {
    var s := a + w + b;
    assert s[|a|..|a| + |w|] == w;
    assert Upper(s)[|a|..|a| + |w|] == Upper(w);
    assert OccursAt(Upper(s), W, |a|);
  }

  /** `judge_max_tokens`: the ceiling never drops below 1, so the judge call
      is never skipped for lack of budget, and never exceeds the judge
      model's own maximum. */
  function JudgeMaxTokens(maxTokens: int, contextLength: int, promptTokens: int): (r: int)
    ensures r <= maxTokens
    ensures r <= Max(1, contextLength - promptTokens)
    ensures r == maxTokens || r == Max(1, contextLength - promptTokens)
    ensures maxTokens >= 1 ==> r >= 1
  {
    Min(maxTokens, Max(1, contextLength - promptTokens))
  }

  /** The fixed grading template with the three texts embedded. */
  function JudgePrompt(question: string, goldAnswer: string, llmAnswer: string): string {
    Fill(JudgeHead, question, JudgeGold, goldAnswer, JudgeCandidate, llmAnswer, JudgeTail)
  }

  /** A template of four fixed parts with three texts between them. */
  function Fill(h: string, x: string, g: string, y: string, c: string, z: string, t: string): string {
    h + x + g + y + c + z + t
  }

  const JudgeHead := "Assess whether the following CANDIDATE ANSWER is CORRECT or INCORRECT.\n"
    + "For the CANDIDATE ANSWER to be correct, it must be consistent with the OFFICIAL ANSWER.\n\n"
    + "The question, for reference only: "
  const JudgeGold := "\nThe OFFICIAL ANSWER: "
  const JudgeCandidate := "\nCANDIDATE ANSWER TO ASSESS: "
  const JudgeTail := "\n\nReply only with CORRECT or INCORRECT.\n"

  lemma FillEmbeds(h: string, x: string, g: string, y: string, c: string, z: string, t: string)
    ensures var p := Fill(h, x, g, y, c, z, t);
      && Contains(p, x) && Contains(p, y) && Contains(p, z)
      && |p| >= |t| && p[|p| - |t|..] == t
  {
    var p := Fill(h, x, g, y, c, z, t);
    assert p == h + x + (g + y + c + z + t);
    ContainsMiddle(h, x, g + y + c + z + t);
    assert p == (h + x + g) + y + (c + z + t);
    ContainsMiddle(h + x + g, y, c + z + t);
    assert p == (h + x + g + y + c) + z + t;
    ContainsMiddle(h + x + g + y + c, z, t);
  }

  /** The grading prompt embeds the question, the gold answer and the
      candidate answer, and ends with the reply instruction. */
  lemma JudgePromptEmbedsTexts(question: string, goldAnswer: string, llmAnswer: string)
    ensures var p := JudgePrompt(question, goldAnswer, llmAnswer);
      && Contains(p, question) && Contains(p, goldAnswer) && Contains(p, llmAnswer)
      && |p| >= |JudgeTail| && p[|p| - |JudgeTail|..] == JudgeTail
  {
    FillEmbeds(JudgeHead, question, JudgeGold, goldAnswer, JudgeCandidate, llmAnswer, JudgeTail);
  }

  /** `grade_answer`: one judge call; its reply is normalised and its usage
      returned unchanged. */
  function GradeAnswer(question: string, goldAnswer: string, llmAnswer: string,
                       judgeCfg: ModelConfig, countTokens: Tokenizer,
                       contextLength: int, retries: int, complete: Completer)
    : (r: Result<(string, Usage)>)
    ensures r.Success? ==> IsVerdict(r.value.0)
  {
    var prompt := JudgePrompt(question, goldAnswer, llmAnswer);
    var n :- countTokens(prompt);
    var c :- complete(judgeCfg, prompt, JudgeMaxTokens(judgeCfg.maxTokens, contextLength, n), retries);
    Success((NormalizeJudgeResult(Some(c.content)), c.usage))
  }

  /** The judge call is made with the grading prompt and the ceiling
      `judge_max_tokens` computed from the prompt's length, which is at
      least one token whenever the configured limit is; the reply decides
      the verdict, its usage is passed through and its failure is raised. */
  lemma GradeAnswerCall(question: string, goldAnswer: string, llmAnswer: string,
                        judgeCfg: ModelConfig, countTokens: Tokenizer,
                        contextLength: int, retries: int, complete: Completer, n: nat)
    requires countTokens(JudgePrompt(question, goldAnswer, llmAnswer)) == Success(n)
    ensures judgeCfg.maxTokens >= 1 ==>
      1 <= JudgeMaxTokens(judgeCfg.maxTokens, contextLength, n) <= judgeCfg.maxTokens
    ensures var prompt := JudgePrompt(question, goldAnswer, llmAnswer);
      GradeAnswer(question, goldAnswer, llmAnswer, judgeCfg, countTokens, contextLength, retries, complete)
      == match complete(judgeCfg, prompt, JudgeMaxTokens(judgeCfg.maxTokens, contextLength, n), retries)
         case Success(c) => Success((NormalizeJudgeResult(Some(c.content)), c.usage))
         case Failure(e) => Failure(e)
  {
  }


}
