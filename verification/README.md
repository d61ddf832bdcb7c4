# cognition-synthesis, the decision core in Dafny

This project models the part of cognition-synthesis that decides which
free-text model completions become training data, and proves properties of it.

- **Answer parser** (`AnswerParser.extract_answer`, module `Parser`). It tries
  three regular expressions in priority order:
  - "the final answer is", then white space (line breaks included) and
    colons, then the rest of the line on which those end;
  - "the answer is", followed in the same way;
  - a word-bounded number near the end of the text.

  It then cleans the first group of the first expression that matches. Each
  expression is a hand-written matcher. `MatchAt` says what the expression
  matches when the regex engine starts at a given position. `TryRule` is the
  engine's leftmost scan.
- **Problem lookup and verifier** (`ProblemBank.get_problem` and
  `Verifier.verify`, module `Verification`).
  - The lookup returns the first problem with the given id.
  - The verifier rejects a missing or empty answer. Two decimal numbers
    compare by exact value. Anything else compares as lower-cased, stripped
    text.
- **Self-consistency vote** (`SelfConsistency.reason`, module
  `SelfConsistency`). The votable answers are the extracted answers that are
  present and non-empty. They are tallied in first-seen order, like a Python
  `Counter`. The winner is the first answer with the highest count.
- **Data generation** (`DataGenerator.run`, module `DataGenerator`). This is
  the pipeline without its file and console output. It looks the problem up,
  builds the zero-shot prompt and obtains a batch of completions. Each
  completion is checked on its own. Every completion whose extracted answer
  verifies becomes one record, in order.
- **Prompts** (`PromptManager`, module `Prompts`): the zero-shot and few-shot
  chain-of-thought prompts.
- **Parser examples** (module `ParserExamples`): the rows of the parser's test
  table that the code satisfies, each proved as a lemma about `Extract`.

The completion source is a parameter. `Reason` takes the batch of completions.
`Run` takes a function from a prompt and a sample count to a batch.

A few behaviours of the code are worth stating plainly, because a reader
might expect otherwise:
- The parser has no "the output is" rule.
- Quotes and `**` markers around an answer are kept.
- A phrase rule captures to the end of the line, not to the next period.
- After the trailing number at most one word may follow.
- A capture that cleans to the empty string is returned as `""`. It does not
  fall through to the next rule. For example, "The answer is ." gives `""`
  (`ParserExamples.ExtractBarePeriod`).
- The white space after a phrase may include line breaks, so the answer
  can sit on a later line than the phrase
  (`ParserExamples.ExtractAnswerOnNextLine`).

## Model

| member | source | states |
|---|---|---|
| Parser.Extract | cognition_synthesis/parsing/parser.py:23-45 | An extracted answer never has white space at either end and never spans a line break |
| Parser.ExtractIgnoresSurroundingSpace | cognition_synthesis/parsing/parser.py:33 | White space around the completion never changes the answer, because the text is stripped before matching |
| Parser.ExtractSurroundedBySpace | cognition_synthesis/parsing/parser.py:33 | Adding any white space before and after a completion leaves its answer unchanged |
| Parser.ExtractUsesFirstMatchingRule | cognition_synthesis/parsing/parser.py:35-43 | When the rules before rule n match nowhere and rule n first matches at i, the answer is the cleaned group of that match |
| Parser.ExtractNoneIff | cognition_synthesis/parsing/parser.py:35-45 | The parser returns None exactly when none of the three rules matches anywhere in the stripped text |
| Parser.FinalAnswerWins | cognition_synthesis/parsing/parser.py:15-43 | Suppose the first occurrence of "the final answer is", in any case, does not end the stripped text. Then the answer is the cleaned rest of the line on which the `\s*:*\s*` separator after it ends (the separator may cross line breaks), whatever numbers come earlier |
| Parser.AnswerPhraseWins | cognition_synthesis/parsing/parser.py:17-43 | When the final-answer rule matches nowhere, the first "the answer is" decides the answer in the same way |
| Parser.TrailingNumberWins | cognition_synthesis/parsing/parser.py:20-43 | When neither phrase matches, the answer is the leftmost numeral that reaches the tail. It is returned verbatim and is a numeral |
| Parser.TrailingNumberGroup | cognition_synthesis/parsing/parser.py:20-37 | When neither phrase matches, the fallback's leftmost group, cleaned, is the answer |
| Parser.FinalAnswerIs | cognition_synthesis/parsing/parser.py:15-43 | On stripped text: the final-answer phrase first at i, with its group starting at s, gives the cleaned line from s |
| Parser.AnswerIs | cognition_synthesis/parsing/parser.py:17-43 | The same for the answer phrase, when the final-answer rule matches nowhere |
| Parser.NumberAnswer | cognition_synthesis/parsing/parser.py:20-43 | On stripped text with no phrase match, a numeral from i to e that reaches the tail, with none earlier, is the answer |
| Parser.NoAnswer | cognition_synthesis/parsing/parser.py:35-45 | On stripped text with no rule matching, the answer is None |
| Parser.TryRuleSearch | cognition_synthesis/parsing/parser.py:36 | A search finds nothing exactly when no start position matches; otherwise it returns the group of the leftmost match |
| Parser.TryRule | cognition_synthesis/parsing/parser.py:36-39 | A rule's group, when there is one, is non-empty and lies on one line |
| Parser.FirstMatch | cognition_synthesis/parsing/parser.py:35-37 | The group found by trying the rules in order never spans a line break |
| Parser.PhraseMatch | cognition_synthesis/parsing/parser.py:15-17 | A phrase rule's group, when the engine starts at i, is non-empty and lies on one line |
| Parser.NumberMatch | cognition_synthesis/parsing/parser.py:20 | The fallback's group, when the engine starts at i, is a numeral that starts at i with no word character before it |
| Parser.TryRuleLeftmost | cognition_synthesis/parsing/parser.py:36-39 | A rule's group is the one of its leftmost match |
| Parser.FirstMatchPicks | cognition_synthesis/parsing/parser.py:35-37 | The first rule in the list that matches decides the result |
| Parser.FirstMatchNone | cognition_synthesis/parsing/parser.py:35-45 | Nothing is found exactly when every rule in the list matches nowhere |
| Parser.FirstSome | cognition_synthesis/parsing/parser.py:36 | The leftmost start position that matches, with nothing matching before it |
| Parser.LastLineChar | cognition_synthesis/parsing/parser.py:15 | Backtracking `\s*:*\s*` before `(.+)`: the group starts at the last position of the separator range that is not a newline, or nowhere |
| Parser.CaptureOnTrimmed | cognition_synthesis/parsing/parser.py:15-17 | On stripped text a phrase captures a group exactly when it does not end the text |
| Parser.PhraseMatchOnTrimmed | cognition_synthesis/parsing/parser.py:15-17 | On stripped text a phrase rule matches at i exactly when the phrase sits at i in any case and something follows it |
| Parser.PhraseLeftmost | cognition_synthesis/parsing/parser.py:15-17 | The first occurrence of a phrase that does not end the stripped text is the leftmost match of its rule, and it captures the line after the separator |
| Parser.NumberLeftmost | cognition_synthesis/parsing/parser.py:20 | The first start from which a numeral reaches the tail is the fallback's leftmost match, and the group is that numeral |
| Parser.NumberEnd | cognition_synthesis/parsing/parser.py:20 | The fallback group, when the engine starts at i, ends after i |
| Parser.NumberEndShape | cognition_synthesis/parsing/parser.py:20 | Soundness: the fallback's group is a word-bounded `\d+(\.\d+)?`, followed by at most one word, an optional period and white space to the end |
| Parser.NumberEndComplete | cognition_synthesis/parsing/parser.py:20 | Completeness: every word-bounded numeral from i that such a tail follows is the fallback's group at i |
| Parser.MatchAtShape | cognition_synthesis/parsing/parser.py:15-20 | Whatever rule is tried at whatever start, a captured group is a non-empty piece of one line, and the fallback's group is a numeral |
| Parser.PhraseAbsent | cognition_synthesis/parsing/parser.py:15-17 | A phrase cannot occur where its first two letters do not |
| Parser.Clean | cognition_synthesis/parsing/parser.py:39-43 | The cleaned group has no surrounding white space. It is a slice of the group: only white space is removed in front, and behind only a tail of white space, at most one period and white space. When that tail holds no period, the result does not end with one |
| Parser.CleanTrimmed | cognition_synthesis/parsing/parser.py:39-43 | For a group with no white space at either end: when it ends with a period and no white space comes before that period, cleaning removes exactly that period; without a closing period, cleaning changes nothing |
| Parser.CleanNumeral | cognition_synthesis/parsing/parser.py:39-43 | Cleaning leaves a numeral as it is, so the fallback returns the number verbatim |
| Text.Strip | cognition_synthesis/parsing/parser.py:33 | The stripped text has no white space at either end, and it is a slice of the input with only white space cut off on either side |
| Text.StripUnique | cognition_synthesis/parsing/parser.py:33 | Any slice with only white space cut off around it and none left at its ends is what stripping gives |
| Text.StripSurrounded | cognition_synthesis/parsing/parser.py:33 | Stripping white space added around a string gives the same result as stripping the string |
| Text.StripTrimmed | cognition_synthesis/parsing/parser.py:33 | Stripping leaves a trimmed string unchanged |
| Text.StripIdempotent | cognition_synthesis/parsing/parser.py:33 | Stripping twice is stripping once |
| Text.Lower | cognition_synthesis/verification/verifier.py:48 | Lower-casing keeps the length and maps every character through the ASCII lower-case map |
| ParserExamples.ExtractFinalAnswerMidText | tests/parsing/test_parser.py:15 | "Some reasoning steps... The final answer is 6." gives "6" |
| ParserExamples.ExtractFinalAnswerAfterColon | tests/parsing/test_parser.py:16 | "Let's think. 2+2=4. The final answer is: 4" gives "4": the earlier numbers and the colon are passed over |
| ParserExamples.ExtractAnswerPhrase | tests/parsing/test_parser.py:17 | "The answer is 11." gives "11" |
| ParserExamples.ExtractTrailingNumber | tests/parsing/test_parser.py:18 | "The result is 42" gives "42" |
| ParserExamples.ExtractTrailingDecimal | tests/parsing/test_parser.py:19 | "Some text that ends with a number 3.14" gives "3.14" |
| ParserExamples.ExtractAnswerPhraseLowerCase | tests/parsing/test_parser.py:21 | "After all that, the answer is: six." gives "six" |
| ParserExamples.ExtractNumberBeforeWord | tests/parsing/test_parser.py:22 | "He has 5 + 6 = 11 balls." gives "11": 5 and 6 are followed by too much |
| ParserExamples.ExtractFinalAnswerWord | tests/parsing/test_parser.py:23 | "The final answer is LE." gives "LE", case kept |
| ParserExamples.ExtractNothingWithoutMarkers | tests/parsing/test_parser.py:32 | "There is no answer here." gives None |
| ParserExamples.ExtractNothingMidSentence | tests/parsing/test_parser.py:33 | "The number 6 is in the middle of this sentence." gives None |
| ParserExamples.ExtractNothingWithoutIs | tests/parsing/test_parser.py:34 | "A final note on the answer." gives None |
| ParserExamples.ExtractNothingWithoutNumbers | tests/parsing/test_parser.py:35 | "A response with no numbers." gives None |
| ParserExamples.ExtractAnswerOnNextLine | cognition_synthesis/parsing/parser.py:15-43 | "The final answer is:" followed by two line breaks and "42." gives "42": the separator runs over the line breaks and the answer is the line on which it ends, cleaned |
| ParserExamples.ExtractBarePeriod | cognition_synthesis/parsing/parser.py:39-43 | "The answer is ." gives the empty string, not None: the lone period is captured and cleaned away |
| Verification.GetProblem | cognition_synthesis/verification/verifier.py:24-28 | The result is None exactly when no entry has the id; otherwise it is the first entry with that id |
| Verification.GetProblemExample | cognition_synthesis/verification/verifier.py:8-28 | "math_001" finds the problem whose ground truth is "70", "math_002" finds the second entry, and an unknown id finds nothing |
| Verification.GetProblemFirstMatch | cognition_synthesis/verification/verifier.py:24-28 | With a repeated id the earlier entry wins |
| Verification.Verify | cognition_synthesis/verification/verifier.py:34-49 | A missing or empty answer never verifies. When both sides read as numbers, the verdict is equality of their exact values. Otherwise it is equality of the lower-cased, stripped texts |
| Verification.ParseNumber | cognition_synthesis/verification/verifier.py:44 | White space is stripped as `float()` strips it: every Unicode white space character except the separators U+001C to U+001F. A string that strips to nothing is not a number. Neither is one whose first non-stripped character is not a digit, sign or period. A stripped string of digits reads as its decimal value, and every number read holds a digit |
| Verification.ParseNumberSpec | cognition_synthesis/verification/verifier.py:44 | Exactly the strings that, once stripped of the white space `float()` ignores (U+001C to U+001F are not ignored), are an optional sign, then digits with at most one period and at least one digit, read as numbers. The value is the digits as an integer, negated after a minus sign, with one decimal place per digit after the period |
| Verification.FloatStrip | cognition_synthesis/verification/verifier.py:44 | What `float()` reads is a slice of its argument with only white space it ignores cut off on either side and none of that white space left at either end |
| Verification.FloatStripTrimmed | cognition_synthesis/verification/verifier.py:44 | A string with no white space at either end is read by `float()` as it stands |
| Verification.FloatStripIsStrip | cognition_synthesis/verification/verifier.py:44 | For a string holding none of the separators U+001C to U+001F, `float()` strips exactly what `strip()` strips |
| Verification.SeparatorBlocksNumber | cognition_synthesis/verification/verifier.py:42-49 | U+001C followed by "1" is not a number, so "1.0" does not verify against it |
| Verification.ParseUnsignedSpec | cognition_synthesis/verification/verifier.py:44 | Without a sign: exactly `digits`, `digits.digits`, `digits.` and `.digits` are accepted, with their values |
| Verification.NotLiteral | cognition_synthesis/verification/verifier.py:44 | A trimmed string that starts with a digit and has an inner non-digit is not a number when that character is a period with another non-digit after it, or is not a period in a string with no period at all |
| Verification.ParseRejectsExamples | cognition_synthesis/verification/verifier.py:44 | "70abc", "1.2.3" and "7 0" are not numbers |
| Verification.ParsePointed | cognition_synthesis/verification/verifier.py:44 | A trimmed, unsigned numeral of the form digits, period, digits reads as all its digits with the period removed, scaled down by the number of digits after the period |
| Verification.SameTextSurrounded | cognition_synthesis/verification/verifier.py:47-49 | Texts that differ only in ASCII letter case and surrounding white space compare equal in the fallback |
| Verification.VerifySymmetric | cognition_synthesis/verification/verifier.py:39-49 | For two non-empty strings the verdict does not depend on which is the answer and which the ground truth |
| Verification.VerifyReflexive | cognition_synthesis/verification/verifier.py:39-49 | Every non-empty answer verifies against itself |
| Verification.SameValueIsEqualValue | cognition_synthesis/verification/verifier.py:44 | Cross-multiplying the decimals decides equality of their rational values |
| Verification.SameValueTransitive | cognition_synthesis/verification/verifier.py:44 | Numeric equality is transitive |
| Verification.ParseSeventy | cognition_synthesis/verification/verifier.py:44 | "70" reads as the number 70 |
| Verification.ParseSixtyFive | cognition_synthesis/verification/verifier.py:44 | "65" reads as the number 65 |
| Verification.ParseSeventyPointZero | cognition_synthesis/verification/verifier.py:44 | "70.0" reads as 700 tenths |
| Verification.ParseWord | cognition_synthesis/verification/verifier.py:44-45 | A trimmed string that starts with a letter is not a number |
| Verification.VerifyNumericExample | cognition_synthesis/verification/verifier.py:42-44 | "70" verifies against "70.0" |
| Verification.VerifyTextExample | cognition_synthesis/verification/verifier.py:45-49 | "Six" verifies against "six" |
| Verification.VerifyMixedExample | cognition_synthesis/verification/verifier.py:42-49 | "70" does not verify against "seventy" |
| Verification.VerifySeventyExample | cognition_synthesis/verification/verifier.py:42-44 | Against "70", "70" verifies and "65" does not |
| SelfConsistency.Reason | cognition_synthesis/reasoning/self_consistency.py:17-56 | The batch comes back unchanged. An empty batch has no winner. There is no winner exactly when no sample gives a present, non-empty answer. Otherwise the winner is the plurality winner of the votable answers |
| SelfConsistency.NoVotesIff | cognition_synthesis/reasoning/self_consistency.py:38-47 | The list of answers stays empty exactly when no sample's extracted answer is present and non-empty |
| SelfConsistency.Extractions | cognition_synthesis/reasoning/self_consistency.py:38-42 | One parser result per sample, in sample order |
| SelfConsistency.Votes | cognition_synthesis/reasoning/self_consistency.py:38-42 | An answer is among the votes exactly when it is non-empty and some sample extracts to it |
| SelfConsistency.VotesCount | cognition_synthesis/reasoning/self_consistency.py:38-42 | Each non-empty answer has one vote per sample that extracts to it |
| SelfConsistency.VotesFirstSeenOrder | cognition_synthesis/reasoning/self_consistency.py:38-42 | Of two votable answers, the one first extracted earlier comes first among the votes, and conversely |
| SelfConsistency.KeyIndex | cognition_synthesis/reasoning/self_consistency.py:50 | The dictionary lookup of the tally: the position of the answer's entry, or the end when it has none |
| SelfConsistency.Tally | cognition_synthesis/reasoning/self_consistency.py:50 | The tally has one entry per distinct answer, holding its number of occurrences, with entries in first-seen order |
| SelfConsistency.Bump | cognition_synthesis/reasoning/self_consistency.py:50 | Counting one vote for a: the key list stays the same when a is present and gains a at the end when it is new; every other entry is unchanged; the count looked up for a is one more than before, or 1 when new |
| SelfConsistency.BumpStep | cognition_synthesis/reasoning/self_consistency.py:50 | Counting one more vote keeps the tally correct |
| SelfConsistency.ArgMax | cognition_synthesis/reasoning/self_consistency.py:51 | The first entry with the highest count, as `max` keeps it |
| SelfConsistency.Vote | cognition_synthesis/reasoning/self_consistency.py:50-51 | No votes give no winner; otherwise the result is the plurality winner with the first-seen tie-break |
| SelfConsistency.PluralityWinnerUnique | cognition_synthesis/reasoning/self_consistency.py:50-51 | At most one answer is the plurality winner |
| SelfConsistency.VoteIsPluralityWinner | cognition_synthesis/reasoning/self_consistency.py:50-51 | The vote returns w exactly when w is the plurality winner |
| SelfConsistency.FirstIndexAppend | cognition_synthesis/reasoning/self_consistency.py:50 | A new vote leaves every first occurrence in place, and a new answer is first seen last |
| SelfConsistency.VoteMajorityExample | cognition_synthesis/reasoning/self_consistency.py:50-51 | Votes "11", "11", "7" give "11" |
| SelfConsistency.VoteTieExample | cognition_synthesis/reasoning/self_consistency.py:50-51 | Votes "B", "A", "A", "B" give "B", the tied answer seen first |
| DataGenerator.Run | cognition_synthesis/pipelines/data_generator.py:24-64 | An unknown id gives no records. Otherwise the result is the outcome for the completions of the zero-shot prompt. The vote's answer plays no part |
| DataGenerator.OutcomeRecordsVerified | cognition_synthesis/pipelines/data_generator.py:45-59 | For a problem that was found, a completion has a record exactly when it is in the batch and its extracted answer verifies against the ground truth |
| DataGenerator.RecordsAreVerifiedSamples | cognition_synthesis/pipelines/data_generator.py:47-59 | Under `run`'s verdict, a sample has a record exactly when it is in the batch and its extracted answer verifies |
| DataGenerator.AcceptanceNeedsAnswer | cognition_synthesis/pipelines/data_generator.py:48-51 | A completion with no extracted answer, or an empty one, is never accepted |
| DataGenerator.CollectAccepted | cognition_synthesis/pipelines/data_generator.py:45-59 | The writing loop produces the accepted records, in order, and counts exactly the records written, at most one per sample |
| DataGenerator.AcceptedRecords | cognition_synthesis/pipelines/data_generator.py:47-59 | There are never more records than samples |
| DataGenerator.AcceptedRecordsMembers | cognition_synthesis/pipelines/data_generator.py:47-59 | A record exists for a sample exactly when the sample is accepted, and each record pairs the problem with a whole, unchanged sample |
| DataGenerator.AcceptedRecordsCount | cognition_synthesis/pipelines/data_generator.py:47-59 | No deduplication: an accepted sample gives as many records as it occurs, a rejected one none |
| DataGenerator.AcceptedRecordsAppend | cognition_synthesis/pipelines/data_generator.py:47-59 | The records of a concatenated batch are those of its parts, in order |
| DataGenerator.RunScenario | cognition_synthesis/pipelines/data_generator.py:47-59 | Three samples that extract to 70, 70 and 65, against ground truth "70", give exactly the first two as records |
| DataGenerator.RecordsOfThree | cognition_synthesis/pipelines/data_generator.py:47-59 | Of three samples, accepted, accepted and rejected, the first two become records |
| DataGenerator.NoSamplesNoRecords | cognition_synthesis/pipelines/data_generator.py:47-59 | An empty batch gives no records |
| Prompts.ZeroShotCot | cognition_synthesis/prompts/manager.py:11-21 | The prompt starts with the problem and is longer than it by the cue and the two line breaks before it |
| Prompts.ZeroShotRoundTrip | cognition_synthesis/prompts/manager.py:21 | Removing the cue from a zero-shot prompt gives back the problem |
| Prompts.ZeroShotCotInjective | cognition_synthesis/prompts/manager.py:21 | Different problems give different zero-shot prompts |
| Prompts.ZeroShotCotExample | tests/prompts/test_manager.py:11-17 | The zero-shot prompt for "How many apples are there?" is exactly the expected text |
| Prompts.JoinWithLength | cognition_synthesis/prompts/manager.py:46 | A join is as long as its parts plus one separator between each pair of neighbours; joining nothing gives the empty string |
| Prompts.FewShotCotNoExamples | cognition_synthesis/prompts/manager.py:46-47 | With no examples the prompt is the separator, the problem line and the open answer line |
| Prompts.FewShotCotOneExample | cognition_synthesis/prompts/manager.py:37-47 | With one example the prompt is that example's rendering followed by the closing block |
| Prompts.FewShotCot | cognition_synthesis/prompts/manager.py:23-49 | The prompt ends with the closing block (rule, problem line, open answer line) and, when there are examples, starts with the first example's rendering |
| Prompts.RenderExample | cognition_synthesis/prompts/manager.py:39-43 | A rendered example is 40 characters longer than its three fields together, starts with the problem line and ends with the answer and a period |
| Prompts.JoinWith | cognition_synthesis/prompts/manager.py:46 | Joining nothing gives the empty string; otherwise the join starts with the first part and ends with the last |
| Prompts.FewShotCotEndsWithAnswer | cognition_synthesis/prompts/manager.py:47 | Every few-shot prompt ends with an open answer line |
| Prompts.FewShotCotAppend | cognition_synthesis/prompts/manager.py:37-47 | Given at least one example already, one more example adds its rendering, after a separator, just before the closing block |
| Prompts.FewShotCotInjective | cognition_synthesis/prompts/manager.py:47 | With the same examples, different problems give different prompts |
| Prompts.FewShotCotTwoExamples | cognition_synthesis/prompts/manager.py:37-47 | Two examples give both three-line renderings, in order, separated by rules, then the closing block |
| Prompts.FewShotCotExample | tests/prompts/test_manager.py:20-51 | The two-example prompt of the prompt tests is exactly the expected text |

## Left out

- The completion client (`cognition_synthesis/llm/client.py`) and the demo script (`main.py`) are not modelled. Completions are an input batch, or a function from prompt and sample count to a batch.
- `reason` calls the client as `query_sample_n`, a method that `client.py` does not define. `Reason` therefore takes the batch directly.
- File writing, JSON encoding and every `print` are left out. The records are returned instead of appended to a file.
- The requested sample count is passed to the completion source and otherwise unused. The defaults of 5 and 8 samples are not modelled.
- The hard-coded problem texts of the problem bank are not modelled. The lookup is over any bank.
- Regular expressions are hand-written matchers for the three patterns only, not a general engine.
- `\d`, `\w` and `lower()` are ASCII only. `\s` and `strip()` use the full `str.isspace` set.
- The phrase rules fold case for ASCII letters only. Python's `re.IGNORECASE` on a `str` pattern also lets `ı` and `İ` match `i`, and `ſ` match `s`, so a phrase written with those characters matches in the source and not here.
- `float()` also reads non-ASCII decimal digits (Arabic-Indic, full-width and so on) as numbers. The model reads only ASCII digits, so such answers fall back to the text comparison here.
- Verification.Verify: the numeric branch reads only optional white space (as `float()` strips it), an optional sign and `digits[.digits]`, `digits.` or `.digits`, with exact rational values. Python's `float()` also accepts `inf`, `nan`, exponents and underscores, and it rounds to binary doubles. So two different decimals that round to the same double compare equal in the source and unequal here.
- Verification.VerifyReflexive: does not hold in the source for "nan", because the source's `float("nan")` never equals itself. The model reads "nan" as text.
- Verification.ParseWord: in the source `float()` accepts a few letter words such as "inf" and "nan". Here no word starting with a letter is a number.
- The parser test rows at lines 25, 26 and 27-30 of `tests/parsing/test_parser.py` are not stated. The code does not satisfy them: it has no "the output is" rule, removes no quotes or `**`, and allows only one word after a trailing number.
- A few-shot example missing one of its three keys raises in the source. Here an example is a record with all three fields.
