/**
  `PromptManager`: the zero-shot chain-of-thought prompt (the problem followed
  by a fixed cue) and the few-shot prompt (worked examples separated by a
  rule, then the new problem with an open answer line).
 */
module Prompts {
  import opened Wrappers

  const ZeroShotCotPhrase := "Let's think step by step."

  /** `create_zero_shot_cot_prompt` */
  function ZeroShotCot(problem: string): (p: string)
    ensures |p| == |problem| + 2 + |ZeroShotCotPhrase|
    ensures p[..|problem|] == problem
  {
    problem + "\n\n" + ZeroShotCotPhrase
  }

  /** The problem a zero-shot prompt was built from: the prompt without its cue */
  function ZeroShotProblem(p: string): (problem: Option<string>)
  {
    var n := |"\n\n" + ZeroShotCotPhrase|;
    if |p| >= n && p[|p| - n..] == "\n\n" + ZeroShotCotPhrase then Some(p[..|p| - n]) else None
  }

  /** Reading the problem back out of a zero-shot prompt gives the problem */
  lemma ZeroShotRoundTrip(problem: string)
    ensures ZeroShotProblem(ZeroShotCot(problem)) == Some(problem)
  {
    var p := ZeroShotCot(problem);
    assert p[|problem|..] == "\n\n" + ZeroShotCotPhrase;
    assert p[..|problem|] == problem;
  }

  /** Different problems give different zero-shot prompts */
  lemma ZeroShotCotInjective(a: string, b: string)
    requires ZeroShotCot(a) == ZeroShotCot(b)
    ensures a == b
  {
    ZeroShotRoundTrip(a);
    ZeroShotRoundTrip(b);
  }

  lemma ZeroShotCotExample(problem: string)
    requires problem == "How many apples are there?"
    ensures ZeroShotCot(problem) == "How many apples are there?\n\nLet's think step by step."
  {
  }

  /** One worked example: the `problem`, `reasoning` and `answer` keys */
  datatype Example = Example(problem: string, reasoning: string, answer: string)

  const Separator := "\n\n---\n\n"

  /** One example as three lines, the last one in the form the answer parser looks for first */
  function RenderExample(ex: Example): (s: string)
    ensures |s| == |ex.problem| + |ex.reasoning| + |ex.answer| + 40
    ensures s[..9 + |ex.problem|] == "Problem: " + ex.problem
    ensures s[|s| - |ex.answer| - 1..] == ex.answer + "."
  {
    "Problem: " + ex.problem + "\nAnswer: " + ex.reasoning + "\nThe final answer is " + ex.answer + "."
  }

  /** `sep.join(parts)` */
  function JoinWith(parts: seq<string>, sep: string): (s: string)
    ensures |parts| == 0 ==> s == ""
    ensures |parts| > 0 ==> |parts[0]| <= |s| && s[..|parts[0]|] == parts[0]
    ensures |parts| > 0 ==> |parts[|parts| - 1]| <= |s| && s[|s| - |parts[|parts| - 1]|..] == parts[|parts| - 1]
    decreases |parts|
  {
    if |parts| == 0 then ""
    else if |parts| == 1 then parts[0]
    else
      var init := JoinWith(parts[..|parts| - 1], sep);
      assert parts[..|parts| - 1][0] == parts[0];
      var s := init + sep + parts[|parts| - 1];
      assert s[..|parts[0]|] == init[..|parts[0]|];
      s
  }

  /** A joined string is the parts with one separator between neighbours */
  lemma {:induction false} JoinWithLength(parts: seq<string>, sep: string)
    ensures |parts| > 0 ==> |JoinWith(parts, sep)| == TotalLength(parts) + (|parts| - 1) * |sep|
    ensures |parts| == 0 ==> JoinWith(parts, sep) == ""
    decreases |parts|
  {
    if |parts| > 1 {
      JoinWithLength(parts[..|parts| - 1], sep);
      assert parts[..|parts| - 1] + [parts[|parts| - 1]] == parts;
      TotalLengthAppend(parts[..|parts| - 1], parts[|parts| - 1]);
    }
  }

  function TotalLength(parts: seq<string>): nat
    decreases |parts|
  {
    if |parts| == 0 then 0 else TotalLength(parts[..|parts| - 1]) + |parts[|parts| - 1]|
  }

  lemma TotalLengthAppend(parts: seq<string>, x: string)
    ensures TotalLength(parts + [x]) == TotalLength(parts) + |x|
  {
    assert (parts + [x])[..|parts|] == parts;
  }

  /** Joining the first parts and then one more is joining all of them */
  lemma JoinWithAppend(parts: seq<string>, x: string, sep: string)
    requires |parts| > 0
    ensures JoinWith(parts + [x], sep) == JoinWith(parts, sep) + sep + x
  {
    assert (parts + [x])[..|parts|] == parts;
  }

  function RenderAll(examples: seq<Example>): (rs: seq<string>)
    ensures |rs| == |examples|
    ensures forall i :: 0 <= i < |examples| ==> rs[i] == RenderExample(examples[i])
  {
    seq(|examples|, i requires 0 <= i < |examples| => RenderExample(examples[i]))
  }

  /** The closing block of every few-shot prompt */
  function Question(problem: string): string {
    Separator + "Problem: " + problem + "\nAnswer:"
  }

  /** `create_few_shot_cot_prompt` */
  function FewShotCot(problem: string, examples: seq<Example>): (p: string)
    ensures |Question(problem)| <= |p| && p[|p| - |Question(problem)|..] == Question(problem)
    ensures |examples| > 0 ==> var first := RenderExample(examples[0]); |first| <= |p| && p[..|first|] == first
  {
    JoinWith(RenderAll(examples), Separator) + Question(problem)
  }

  /** With no examples the prompt is just the closing block */
  lemma FewShotCotNoExamples(problem: string)
    ensures FewShotCot(problem, []) == "\n\n---\n\nProblem: " + problem + "\nAnswer:"
  {
  }

  /** With one example the prompt is that example and the closing block */
  lemma FewShotCotOneExample(problem: string, ex: Example)
    ensures FewShotCot(problem, [ex]) == RenderExample(ex) + Question(problem)
  {
    assert RenderAll([ex]) == [RenderExample(ex)];
  }

  /** Every few-shot prompt ends with an open answer line */
  lemma FewShotCotEndsWithAnswer(problem: string, examples: seq<Example>)
    ensures var p := FewShotCot(problem, examples);
      |p| >= 8 && p[|p| - 8..] == "\nAnswer:"
  {
    var p, q := FewShotCot(problem, examples), Question(problem);
    assert q[|q| - 8..] == "\nAnswer:";
    assert p[|p| - 8..] == p[|p| - |q|..][|q| - 8..];
  }

  /** One more example adds its rendering, after a separator, before the closing block */
  lemma FewShotCotAppend(problem: string, examples: seq<Example>, ex: Example)
    requires |examples| > 0
    ensures FewShotCot(problem, examples + [ex]) ==
      JoinWith(RenderAll(examples), Separator) + Separator + RenderExample(ex) + Question(problem)
  {
    assert RenderAll(examples + [ex]) == RenderAll(examples) + [RenderExample(ex)];
    JoinWithAppend(RenderAll(examples), RenderExample(ex), Separator);
  }

  /** The problem is the text between the last "Problem: " and the final answer line */
  lemma FewShotCotInjective(a: string, b: string, examples: seq<Example>)
    requires FewShotCot(a, examples) == FewShotCot(b, examples)
    ensures a == b
  {
    var j := JoinWith(RenderAll(examples), Separator);
    var pa, pb := FewShotCot(a, examples), FewShotCot(b, examples);
    var n := |j + Separator + "Problem: "|;
    assert |a| == |b|;
    assert pa[n..n + |a|] == a;
    assert pb[n..n + |b|] == b;
  }

  /** A rendered example is three lines: the problem, the reasoning and the final answer */
  lemma RenderExampleLines(ex: Example)
    ensures RenderExample(ex) ==
      ("Problem: " + ex.problem + "\n") + ("Answer: " + ex.reasoning + "\n") + ("The final answer is " + ex.answer + ".")
  {
    assert "\nAnswer: " == "\n" + "Answer: ";
    assert "\nThe final answer is " == "\n" + "The final answer is ";
  }

  /** Two examples: each example's three lines, a rule between them, and the closing block */
  lemma FewShotCotTwoExamples(problem: string, e0: Example, e1: Example)
    ensures FewShotCot(problem, [e0, e1]) ==
      ("Problem: " + e0.problem + "\n") + ("Answer: " + e0.reasoning + "\n") + ("The final answer is " + e0.answer + ".")
      + Separator
      + ("Problem: " + e1.problem + "\n") + ("Answer: " + e1.reasoning + "\n") + ("The final answer is " + e1.answer + ".")
      + Separator
      + ("Problem: " + problem + "\n") + "Answer:"
  {
    RenderExampleLines(e0);
    RenderExampleLines(e1);
    var r0, r1 := RenderExample(e0), RenderExample(e1);
    assert RenderAll([e0, e1]) == [r0, r1];
    assert JoinWith([r0, r1], Separator) == r0 + Separator + r1 by {
      assert [r0, r1][..1] == [r0];
    }
    assert "\nAnswer:" == "\n" + "Answer:";
  }

  lemma FewShotCotExample(problem: string, examples: seq<Example>)
    requires problem == "A third problem."
    requires examples == [
      Example("First example problem.", "Step 1 reasoning.", "A"),
      Example("Second example problem.", "Step 2 reasoning.", "B")]
    ensures FewShotCot(problem, examples) ==
      "Problem: First example problem.\n"
      + "Answer: Step 1 reasoning.\n"
      + "The final answer is A."
      + "\n\n---\n\n"
      + "Problem: Second example problem.\n"
      + "Answer: Step 2 reasoning.\n"
      + "The final answer is B."
      + "\n\n---\n\n"
      + "Problem: A third problem.\n"
      + "Answer:"
  {
    FewShotCotTwoExamples(problem, examples[0], examples[1]);
    FirstExampleText();
    SecondExampleText();
    QuestionText();
  }

  lemma FirstExampleText()
    ensures "Problem: " + "First example problem." + "\n" == "Problem: First example problem.\n"
    ensures "Answer: " + "Step 1 reasoning." + "\n" == "Answer: Step 1 reasoning.\n"
    ensures "The final answer is " + "A" + "." == "The final answer is A."
  {
  }

  lemma SecondExampleText()
    ensures "Problem: " + "Second example problem." + "\n" == "Problem: Second example problem.\n"
    ensures "Answer: " + "Step 2 reasoning." + "\n" == "Answer: Step 2 reasoning.\n"
    ensures "The final answer is " + "B" + "." == "The final answer is B."
  {
  }

  lemma QuestionText()
    ensures "Problem: " + "A third problem." + "\n" == "Problem: A third problem.\n"
  {
  }
}
