# Audit pipeline: a verified model

The repository audits quarterly pension-fund workpapers. A generator writes
synthetic workpapers with planted defects, a deterministic Layer 1 extracts one
evidence record per engagement, control and quarter, Layer 2 writes and
fact-checks short narratives about single attributes, and Layer 3 investigates
failed attributes with three sub-agents under a rule-based supervisor. Language
models, databases and spreadsheets sit at the edges; this project models the
logic between them and proves what it guarantees.

Nothing is assumed about a model's replies, an agent, a judge or a reader: each
is an arbitrary function or an arbitrary sequence of replies. Random draws are
arbitrary values in their ranges. Where the program changes state (loops that
append, retry loops, worksheets, tables, recorders, dictionaries used as
caches) the model is a method or a class proved against a specification
function, and the theorems are about that function.

`dafny verify dfyconfig.toml` checks everything.

## Reading order

- Grounding: `Text`, `Decimals`, `Regex`, `NumericScanner`, `EntityScanner`, `CompleteNumbers`, `FactChecker`, `ReportedIssues`, `GroundedNumbers`, `UnequalGrounds`, `Substrate`.
- Model calls: `Llm`, `NarrativeAgent`, `FailClosed`, `Layer2Generator`.
- Workpapers and Layer 1: `Evidence`, `Corpus`, `Workpaper`, `Signoffs`, `AttributeChecks`, `GoldAnswers`, `Dc2`, `Dc9`, `CheckVerdicts`, `Amendments`, `RateTool`, `Orchestrator`.
- Encodings and stores: `Utf8`, `ContentHash`, `Json`, `Keys`, `Silver`, `SilverReader`.
- Layer 3: `Supervisor`, `DecisionRow`.
- Accounting and statistics: `Telemetry`, `EvidenceCache`, `GoldNarratives`, `JudgeSweep`, `Layer2Sweep`, `ReFactCheck`, `BaselineStats`.

## Where the code and its documentation disagree

The model follows the code.

- `narrative_agent.py:329-330` promises 1 to 4 calls; the nested loops allow 8 (`InvokeIsSafe`, `EightCallsAreReached`), and `CallsAre` says exactly when 4 are enough.
- "Never raise" in `validation_agent.py:315` and `judge.py:230` does not cover JSON that is not an object or a response without a choice, and in the judge not token counts that its recorder refuses (`NothingIsInvented`); the narrative agent also raises on transport errors (`RaisesIff`).
- `generator.py:282-286` speaks of 1 or 2 billed calls per narrative; the JSON retry inside the word-limit retry allows 4, and `Layer2Generator.CallsAre` says exactly when 2 are enough.
- The Layer-3 fallback narrative records a word count of 0, which is not the count of its text; every other narrative records its own count (`HonestUnlessFallback`).
- The `_numeric_variants` docstring lists `0.4` and `0` for `40.0%`; the code yields `40.0`, `40` and `0.4` (`FortyPercent`).
- The look-around anchors are documented as telling 0.4 from 0.45, but they only look for digits: `40%` is grounded by `40.5`, by `0.4%`, by `$40` and by `a40b`, and `5%` by `12.5` (`WholePercentGroundedByAPart`, `HundredthPercentGrounds`, `OneNumberIff`). A complete number is one that no longer number, percentage, amount or word contains; apart from exponents it is one token of the checker's own scanner (`CompleteIsAToken`). `GroundedByAnEqualNumberIff` says for any evidence, and `StandingAloneMeansEqual`, `SpelledPercentageIff`, `OneNumberIff` and `WholePercentByADecimalIff` with `EqualDecimalIff` in detail, when grounding means a complete equal number and when a part of something longer was enough.
- `dc2.py:79-80` says some row always exceeds the threshold; the draws do not guarantee it (`QuietStreams`); `AboveIff` and `AgreesWithGoldOnDraws` give the condition on the draws.
- The gold answers and Layer 1 differ where `Dc9.AgreesWithGoldIff` says: Q1 (n/a instead of pass), a figure mismatch (planted in another file) and a missing amendment in a quarter without a rate change.
- Layer 1 accepts "n/a" as an amendment reference and the Layer-3 tool does not (`LowerCaseNAIsMissed`, with the exact condition in `ReportsAmendmentIff`).
- Layer 2 documents a 150-word limit but trusts the count the model reports (`ClaimedCountIsTrusted`); `OverLimitIff` says exactly when it is broken.
- `supervisor.py` names the iteration cap first among its rules; the code looks at the findings first, so a run whose outputs are complete is judged even at the cap.

## Model

| member | source | states |
|---|---|---|
| NumericScanner.TokenKinds | src/agentic_audit/layer2_narrative/fact_checker.py:48 | every token the three-way pattern reports is a dollar amount, a percentage or a number between word boundaries, each running as far as its digits and separators go |
| NumericScanner.EndBeforePercent | src/agentic_audit/layer2_narrative/fact_checker.py:48 | backtracking inside a number never helps the percent alternative: only the longest end can be followed by the percent sign |
| NumericScanner.NeverSplitsARun | src/agentic_audit/layer2_narrative/fact_checker.py:48 | a token never ends in the middle of a run of digits |
| NumericScanner.ReachedRuns | src/agentic_audit/layer2_narrative/fact_checker.py:48 | a maximal digit run is reached by some token if and only if it has no word character on either side, or belongs to a percentage, or belongs to a dollar amount |
| NumericScanner.StandaloneRunsAreScanned | src/agentic_audit/layer2_narrative/fact_checker.py:48 | every number with no word character on either side lies in exactly one token; all other tokens are disjoint from it |
| NumericScanner.TokenChars | src/agentic_audit/layer2_narrative/fact_checker.py:48 | a token holds only digits, separators, a dollar sign and a percent sign, so it never spans a line |
| Regex.Leftmost | src/agentic_audit/layer2_narrative/fact_checker.py:297 | leftmost matching as `findall` does it: any position where the pattern could start lies inside a reported token |
| Regex.FoundIsFirst | src/agentic_audit/layer2_narrative/fact_checker.py:297 | every reported token is the first choice of the ordered, backtracking alternatives at its start, and tokens are disjoint and in order |
| Decimals.FloatTextDenotes | src/agentic_audit/layer2_narrative/fact_checker.py:225-242 | printing a number the way `str(float(...))` does and parsing the text gives the same number, in fixed and in exponent notation |
| Decimals.FloatTextCanonical | src/agentic_audit/layer2_narrative/fact_checker.py:235-242 | the printed form depends on the number only, not on how many trailing zeros its decimal was written with |
| Decimals.WholeValue | src/agentic_audit/layer2_narrative/fact_checker.py:233-246 | the whole-number test holds exactly when the value is a natural number, and the integer printed is that number |
| FactChecker.ExpandNumeric | src/agentic_audit/layer2_narrative/fact_checker.py:181-272 | the appended list of spellings is the specified one, alternative by alternative and in order |
| FactChecker.PercentVariantsDenote | src/agentic_audit/layer2_narrative/fact_checker.py:211-246 | every spelling offered for v% denotes exactly v or exactly v/100 |
| FactChecker.DecimalVariantsDenote | src/agentic_audit/layer2_narrative/fact_checker.py:247-270 | a bare number gets spellings exactly when it is a decimal in (0, 1], and each of them denotes exactly 100 times it, in percent |
| FactChecker.DollarHasNoVariants | src/agentic_audit/layer2_narrative/fact_checker.py:247 | dollar amounts are never respelled |
| FactChecker.PercentRoundTrip | src/agentic_audit/layer2_narrative/fact_checker.py:181-272 | for 0 < p <= 100 the decimal spelling of p% expands back to the canonical spellings of p percent; this covers the smaller magnitudes too, where the printer switches to exponents |
| GroundedNumbers.SpellingIff | src/agentic_audit/layer2_narrative/fact_checker.py:181-272 | a text is tried as a spelling of a numeric if and only if it denotes an equal number (v or v/100 for v%, 100v percent for a plain v in (0, 1]) and is written the way Python prints it |
| GroundedNumbers.GroundedIff | src/agentic_audit/layer2_narrative/fact_checker.py:312-343 | a numeric is grounded if and only if its own text occurs or a canonical spelling of an equal number occurs with no digit next to it |
| CompleteNumbers.CompleteIsAToken | src/agentic_audit/layer2_narrative/fact_checker.py:48 | a number or percentage that nothing longer contains is exactly one token of the scanner run on the evidence |
| GroundedNumbers.GroundedByAnEqualNumberIff | src/agentic_audit/layer2_narrative/fact_checker.py:330-343 | without a literal occurrence, a numeric is grounded if and only if the evidence holds a complete number or percentage that states the same, or a spelling sits inside something longer: a group, fraction or exponent of another number, a percentage, a dollar amount, a word |
| GroundedNumbers.StandingAloneMeansEqual | src/agentic_audit/layer2_narrative/fact_checker.py:330-343 | where every anchored hit of a spelling is a complete number, grounding is the same as occurring literally or having an equal number |
| UnequalGrounds.EqualNumberIsAToken | src/agentic_audit/layer2_narrative/fact_checker.py:48 | an equal number counted as such is, unless written with an exponent, one token of the same scanner |
| UnequalGrounds.SpelledPercentageIff | src/agentic_audit/layer2_narrative/fact_checker.py:330-343 | for every percentage and every spelling x tried for it: x followed by a percent sign grounds it, and is an equal number if and only if x denotes v and not v/100 |
| UnequalGrounds.HundredthPercentGrounds | src/agentic_audit/layer2_narrative/fact_checker.py:330-343 | so for every n > 0, n% is grounded by its hundredth in percent, which is not equal: 40% by 0.4% |
| UnequalGrounds.OneNumberIff | src/agentic_audit/layer2_narrative/fact_checker.py:330-343 | every text whose only digits read n grounds n%; it holds an equal number if and only if no word character, dollar sign or point touches them in front and no word character behind |
| GroundedNumbers.WholePercentGroundedIff | src/agentic_audit/layer2_narrative/fact_checker.py:330-343 | for every n and every evidence: n% is grounded if and only if its text occurs, a maximal digit run reads n (or n/100 when whole) wherever the run stands, or a float spelling of n or n/100 occurs unadjacent |
| GroundedNumbers.WholePercentGroundedByAPart | src/agentic_audit/layer2_narrative/fact_checker.py:330-343 | so n% is grounded by every n.ddd, every ddd.n and every number with exponent n, although the docstring presents the anchors as telling 0.4 from 0.45 |
| GroundedNumbers.WholePercentByADecimalIff | src/agentic_audit/layer2_narrative/fact_checker.py:330-343 | when the evidence is one decimal number i.frac, n% is grounded by it if and only if i or frac reads n (or n/100 when whole), or the number is the decimal spelling of n% |
| GroundedNumbers.EqualDecimalIff | src/agentic_audit/layer2_narrative/fact_checker.py:330-343 | the same i.frac is an equal number only as one of the two float spellings of n%; all other cases above are unequal numbers |
| GroundedNumbers.FortyPercent | src/agentic_audit/layer2_narrative/fact_checker.py:192-203 | the docstring's own example: 40.0% is respelled 40.0, 40 and 0.4 |
| GroundedNumbers.LiteralOnly | src/agentic_audit/layer2_narrative/fact_checker.py:323-328 | a dollar amount, a number above 1 and a zero are grounded if and only if their own text occurs in the evidence |
| GroundedNumbers.GroundedInsideALongerNumber | src/agentic_audit/layer2_narrative/fact_checker.py:337-338 | the literal search has no anchors: every numeric is grounded by evidence that contains it inside a longer number |
| EntityScanner.CapitalisedWordsAreScanned | src/agentic_audit/layer2_narrative/fact_checker.py:54 | every whole word of a capital and further letters and digits lies in exactly one entity, and all other entities are disjoint from it |
| EntityScanner.EntityShape | src/agentic_audit/layer2_narrative/fact_checker.py:54 | every entity begins with a capital at the start of a word, ends at the end of a word, and holds letters, digits and single hyphens or spaces between a word and a capital |
| EntityScanner.LinkedWordsShareAnEntity | src/agentic_audit/layer2_narrative/fact_checker.py:54 | two capitalised words with one hyphen or space between them lie in the same entity: the engine's greedy choice, backtracking included, takes the longest chain |
| FactChecker.StripLeadingStopwords | src/agentic_audit/layer2_narrative/fact_checker.py:346-360 | the popping loop returns the entity without its leading stopwords |
| FactChecker.StrippedEntityWords | src/agentic_audit/layer2_narrative/fact_checker.py:346-360 | what is left is a tail of the entity's words that does not begin with a stopword, and it is empty exactly when every word is one |
| FactChecker.Check | src/agentic_audit/layer2_narrative/fact_checker.py:284-309 | the two appending loops produce exactly the issues of the ungrounded numerics, then of the ungrounded entities; passed means none |
| FactChecker.PassesIff | src/agentic_audit/layer2_narrative/fact_checker.py:284-309 | the check passes if and only if every scanned numeric is grounded and every scanned entity is, once stripped, empty, a slice of the evidence or found by the fuzzy score |
| ReportedIssues.NumericReportedIff | src/agentic_audit/layer2_narrative/fact_checker.py:291-300 | a numeric is reported if and only if it is a scanned token, is no slice of the evidence, and none of its spellings is a slice that no digit touches |
| ReportedIssues.EntityReportedIff | src/agentic_audit/layer2_narrative/fact_checker.py:301-309 | an entity is reported if and only if it is the non-empty stripped text of a scanned entity, is no slice of the evidence, and the fuzzy score does not find it |
| ReportedIssues.NumericsFirst | src/agentic_audit/layer2_narrative/fact_checker.py:291-309 | numerics are reported before entities |
| ReportedIssues.PassesWithoutFuzzyIff | src/agentic_audit/layer2_narrative/fact_checker.py:284-373 | with a fuzzy score that never matches, a text passes if and only if its numerics are grounded and every non-empty stripped entity is a slice of the evidence; so an invented name is always reported |
| FactChecker.PassGroundsEveryNumber | src/agentic_audit/layer2_narrative/fact_checker.py:284-343 | if the check passes, every standalone number of the narrative lies in exactly one token and that token is grounded in the evidence; no number escapes |
| FactChecker.PassGroundsEveryEntity | src/agentic_audit/layer2_narrative/fact_checker.py:301-309 | if the check passes, every capitalised word lies in exactly one entity, and that entity, stripped of leading stopwords, is empty, a slice of the evidence or found by the fuzzy score |
| Text.WordsAround | src/agentic_audit/layer2_narrative/fact_checker.py:346-360 | `split()` cuts at any space and nowhere else, and runs of spaces cut once |
| Text.OneWord | src/agentic_audit/layer2_narrative/fact_checker.py:346-360 | a text without spaces is one word, and an empty one is none |
| Text.StripIs | src/agentic_audit/layer1_extract/attribute_checks.py:77-90 | `strip()` removes the spaces at both ends and nothing else |
| Substrate.FoundInJoin | src/agentic_audit/layer3_agents/narrative_agent.py:171-183 | joining the parts with newlines neither adds nor hides an occurrence of a one-line pattern, anchored or not |
| Substrate.GroundedInJoin | src/agentic_audit/layer3_agents/narrative_agent.py:171-183 | for any list of parts, a one-line numeric is grounded in the joined substrate if and only if it is grounded in one part |
| Substrate.TokensAreOneLine | src/agentic_audit/layer3_agents/narrative_agent.py:263-265 | every numeric the Layer-3 check looks up is one line, so the equivalence covers whole narratives |
| NarrativeAgent.InvokeJson | src/agentic_audit/layer3_agents/narrative_agent.py:585-627 | one retry on empty or malformed content, then a ValueError; refused token counts, a transport error and a missing choice escape at once |
| NarrativeAgent.InvokeWithWordLimit | src/agentic_audit/layer3_agents/narrative_agent.py:519-583 | one retry on an over-long narrative, then truncation, with the count taken from the text |
| NarrativeAgent.Invoke | src/agentic_audit/layer3_agents/narrative_agent.py:399-464 | one fact-check retry around the word-limit retry, then the ESCALATE fallback; errors of the inner layers become the fallback |
| NarrativeAgent.TruncationIsHonest | src/agentic_audit/layer3_agents/narrative_agent.py:563-567 | the truncated text splits into exactly the first 200 words |
| NarrativeAgent.WordLimitHonest | src/agentic_audit/layer3_agents/narrative_agent.py:519-583 | whatever comes out carries the word count of its own text, at most 200 |
| NarrativeAgent.InvokeIsSafe | src/agentic_audit/layer3_agents/narrative_agent.py:399-464 | for every sequence of replies: at most 8 calls, and the result is a narrative that passes the fact check with an honest count of at most 200, or the ESCALATE fallback without citations |
| NarrativeAgent.RaisesIff | src/agentic_audit/layer3_agents/narrative_agent.py:399-464 | the agent raises if and only if the last reply it consumed is a transport error, a response without a choice, JSON that is not an object, or a narrative text that is not a string; refused token counts become the fallback |
| NarrativeAgent.NeverRaises | src/agentic_audit/layer3_agents/narrative_agent.py:399-464 | a reply sequence without such a reply never makes the agent raise |
| NarrativeAgent.HonestUnlessFallback | src/agentic_audit/layer3_agents/narrative_agent.py:696-714 | what is returned carries the count of its own text if and only if it is not the fallback, which records 0 |
| NarrativeAgent.DecidedByLastReply | src/agentic_audit/layer3_agents/narrative_agent.py:519-583 | one narrative is decided by the last reply it takes: raised when that escapes, rejected when it is not usable, and otherwise that reply's own citations, recommendation and text, cut after 200 words |
| NarrativeAgent.InvokeDecides | src/agentic_audit/layer3_agents/narrative_agent.py:399-464 | the whole outcome read off one decisive reply: a usable grounded reply is shipped with its own content and never thrown away, one that escapes raises, and anything else becomes the ESCALATE fallback without citations |
| NarrativeAgent.ShippedIsTheLastReply | src/agentic_audit/layer3_agents/narrative_agent.py:399-464 | what is not the fallback carries the last reply's own citations, recommendation and text or its first 200 words; the fallback is returned if and only if the decisive reply is not usable and grounded |
| NarrativeAgent.CallsAre | src/agentic_audit/layer3_agents/narrative_agent.py:329-330 | the number of calls read off the replies, one per retry; it stays within the documented 4 if and only if the first narrative needs no grounding retry or both narratives together take no more than 4 calls |
| NarrativeAgent.EightCallsAreReached | src/agentic_audit/layer3_agents/narrative_agent.py:329-330 | the witness that the bound of 8 is attained; when a run stays within 4 is CallsAre |
| NarrativeAgent.ShippedNumbersAreGrounded | src/agentic_audit/layer3_agents/narrative_agent.py:247-274 | every standalone number of a shipped non-fallback narrative lies in one scanned token that is grounded in one of the substrate's own parts |
| NarrativeAgent.PassingTextIsGrounded | src/agentic_audit/layer3_agents/narrative_agent.py:137-183 | the same for any text that passes against the joined substrate: scanner completeness and the newline join combined |
| NarrativeAgent.GroundedInASource | src/agentic_audit/layer3_agents/narrative_agent.py:137-183 | a one-line numeric is grounded in the substrate if and only if the current or prior evidence, the extraction or validation findings, an anchor or a glossary grounds it: no source is missing and none is added |
| FailClosed.InvokeWithFallback | src/agentic_audit/layer3_agents/validation_agent.py:298-370 | the two-attempt loop: a failure it handles is retried once and then becomes the fixed negative answer |
| FailClosed.NothingIsInvented | src/agentic_audit/layer3_agents/validation_agent.py:298-370 | the answer is the validated payload of the last reply, or the fallback after exactly two failures; it raises if and only if the last reply is JSON that is not an object, has no choice, or (in the judge, which records outside its handler) carries token counts that are refused, although the docstrings say never |
| FailClosed.AlwaysAnswers | src/agentic_audit/layer3_agents/validation_agent.py:298-370 | a reply sequence without such a reply always gets an answer |
| FailClosed.DecidedByTwoReplies | src/agentic_audit/layer3_agents/validation_agent.py:298-370 | the first of the two replies that is accepted or escapes decides, and the fallback is returned if and only if both are neither |
| FailClosed.AcceptedAnswers | src/agentic_audit/layer2_narrative/judge.py:213-288 | both response models take every confidence from 0 to 1 with a reasoning; a pass or fail verdict also needs a citation |
| FailClosed.UncertainAfterTwoFailures | src/agentic_audit/layer2_narrative/judge.py:213-288 | a valid first judgement is the answer; after two handled failures the verdict is uncertain with no confidence and no citation |
| FailClosed.JudgeFailsClosed | src/agentic_audit/layer2_narrative/judge.py:213-288 | every judgement satisfies its model, and a pass or fail verdict is always the last reply's own, with evidence cited |
| FailClosed.Validate | src/agentic_audit/layer3_agents/validation_agent.py:197-237 | no call at all on the no-document fast path, the two-attempt loop otherwise |
| FailClosed.DocumentLeadsToACall | src/agentic_audit/layer3_agents/validation_agent.py:197-256 | the model is asked if and only if extraction found a document; without one the answer is the fixed refusal with confidence 0.9, and after two failures a refusal with confidence 0 |
| FailClosed.AuthorisationComesFromAReply | src/agentic_audit/layer3_agents/validation_agent.py:197-256 | an authorisation is never invented: it is the last reply's content, and extraction had found a document |
| Layer2Generator.InvokeLlm | src/agentic_audit/layer2_narrative/generator.py:426-480 | one retry on malformed JSON only; empty content and schema errors raise at once |
| Layer2Generator.CallWithWordLimit | src/agentic_audit/layer2_narrative/generator.py:391-424 | one stricter retry when the claimed count is over 150, then truncation |
| Layer2Generator.TruncationIsHonest | src/agentic_audit/layer2_narrative/generator.py:419-424 | the truncated narrative splits into exactly the words it was built from and carries their count, at most 150 |
| Layer2Generator.ShippedCount | src/agentic_audit/layer2_narrative/generator.py:391-424 | at most four calls, a shipped count of at most 150, and the count is the text's own unless it is the one a reply claimed |
| Layer2Generator.CallsAre | src/agentic_audit/layer2_narrative/generator.py:282-286 | the number of calls read off the replies; it stays within the documented 2 if and only if no second response is asked for or neither response has its JSON retried |
| Layer2Generator.OverLimitIff | src/agentic_audit/layer2_narrative/generator.py:391-424 | a shipped narrative has more than 150 words if and only if the last reply claims at most 150 for a text that has more |
| Layer2Generator.HonestRepliesStayWithin | src/agentic_audit/layer2_narrative/generator.py:391-424 | so the documented limit holds on every run whose replies count their words honestly |
| Layer2Generator.ClaimedCountIsTrusted | src/agentic_audit/layer2_narrative/generator.py:394-396 | the witness that the limit can be broken: any text ships with any claimed count within it; when it is broken is OverLimitIff |
| Text.SplitOfJoin | src/agentic_audit/layer2_narrative/generator.py:419-424 | splitting a single-space join gives back exactly the joined words |
| Utf8.DecodeNEncode | src/agentic_audit/generator/content_hash.py:40-41 | a code-point count is enough to find where a UTF-8 name ends: decoding that many code points undoes the encoding (section 3 of RFC 3629) |
| Utf8.BigEndianRoundTrip | src/agentic_audit/generator/content_hash.py:40-42 | the big-endian length prefix determines the length for every length that fits it |
| ContentHash.SortIgnoresOrder | src/agentic_audit/generator/content_hash.py:38 | sorting the entry names gives the same list for any order of the entries |
| ContentHash.NamesAscend | src/agentic_audit/generator/content_hash.py:38 | the names are hashed in ascending order: of any two, the earlier is a prefix of the later or smaller at the first code point where they differ |
| ContentHash.StreamIsFrames | src/agentic_audit/generator/content_hash.py:38-43 | the hashed stream is the concatenation, in that order, of one frame per name: 4-byte length, UTF-8 name, 8-byte length, data |
| ContentHash.StreamExistsIff | src/agentic_audit/generator/content_hash.py:40-42 | hashing fails if and only if some name has 2^32 or more code points or some entry 2^64 or more bytes |
| ContentHash.ReadsLastEntry | src/agentic_audit/generator/content_hash.py:39 | under a repeated name the bytes of its last entry are hashed |
| ContentHash.HashContent | src/agentic_audit/generator/content_hash.py:29-44 | the accumulator loop hashes exactly the specified byte stream, and raises when a length does not fit its prefix |
| ContentHash.FramesInjective | src/agentic_audit/generator/content_hash.py:38-43 | reading the frames back one by one recovers the sorted names and the data under each |
| ContentHash.StreamIdentifiesContent | src/agentic_audit/generator/content_hash.py:29-44 | for any two archives, repeated entry names included, the hashed streams are equal if and only if the archives have the same content |
| ContentHash.DistinctArchives | src/agentic_audit/generator/content_hash.py:29-44 | with distinct entry names, equal streams mean the same set of (name, data) entries, in whatever order they were stored |
| Corpus.AddDaysWithinQuarter | src/agentic_audit/generator/engagement_writers/common.py:30-37 | every draw of a day falls on an existing date inside the quarter |
| Corpus.DrawCountsDays | src/agentic_audit/generator/engagement_writers/common.py:30-37 | a draw of k days is k days after the first of the quarter, and the largest draw is the quarter's last day |
| Corpus.RateNumberDenotes | src/agentic_audit/generator/engagement_writers/common.py:89-111 | the printed rate schedule denotes exactly the fractions the fee is computed with |
| Workpaper.Worksheet.SetCell | src/agentic_audit/generator/engagement_writers/dc2.py:67-103 | one cell is written and every other cell stays |
| Workpaper.Worksheet.AppendRow | src/agentic_audit/generator/engagement_writers/dc2.py:122-157 | writing the next row of a layout extends the finished part of the sheet and keeps what was there |
| Workpaper.RowToRawData | src/agentic_audit/ingest/bronze_smoke.py:85-98 | the row dictionary has one `col_NN` entry per non-empty cell, holding its printed value |
| Workpaper.ExtractRows | src/agentic_audit/ingest/bronze_smoke.py:101-134 | one bronze row per sheet row that has a value, with 1-based indices |
| Workpaper.ReadBack | src/agentic_audit/ingest/bronze_smoke.py:85-134 | ingest loses nothing: looking a cell up in the bronze rows gives its printed value |
| Workpaper.ReadsBack | src/agentic_audit/layer1_extract/attribute_checks.py:48-62 | every non-blank cell of a written sheet is read back as written; a blank one as nothing or the empty string |
| Workpaper.ColumnKeyText | src/agentic_audit/ingest/bronze_smoke.py:85-98 | the key of a column has two digits up to column 99 and as many as it needs from there on |
| Signoffs.SignoffRoundTrip | src/agentic_audit/layer1_extract/orchestrator.py:66-82 | the sign-off parser recovers exactly the initials and the date the writers print, for all valid initials and dates |
| Signoffs.ParsedSignoffIsValid | src/agentic_audit/layer1_extract/orchestrator.py:66-82 | whatever is parsed has two to four capitals and an existing date |
| Signoffs.SpacedSignoff | src/agentic_audit/layer1_extract/orchestrator.py:66-82 | two to four capitals, any spaces, an em dash or a hyphen, any spaces and an existing date are accepted, with those initials and that date |
| Signoffs.ParsedSignoffShape | src/agentic_audit/layer1_extract/orchestrator.py:66-82 | and nothing else is, up to spaces around the whole |
| AttributeChecks.CurrencyOfInt | src/agentic_audit/layer1_extract/attribute_checks.py:65-74 | an integer cell, negative ones included, is parsed back as that integer |
| AttributeChecks.PercentOfNumber | src/agentic_audit/layer1_extract/attribute_checks.py:77-90 | a printed percentage is parsed back as the fraction it denotes |
| CheckVerdicts.CurrencyIgnoresMarks | src/agentic_audit/layer1_extract/attribute_checks.py:65-74 | commas, dollar signs and spaces do not change the amount, wherever they stand |
| CheckVerdicts.CurrencyOfPlain | src/agentic_audit/layer1_extract/attribute_checks.py:65-74 | a text without them reads as the number it spells, and a missing cell as nothing |
| CheckVerdicts.PercentIff | src/agentic_audit/layer1_extract/attribute_checks.py:77-90 | a percentage is a number in front of a trailing percent sign, without N/A, divided by 100, and nothing else is one |
| CheckVerdicts.DispatchTable | src/agentic_audit/layer1_extract/attribute_checks.py:492-520 | which check each attribute is, and which row each sign-off is read from |
| CheckVerdicts.SignoffIff | src/agentic_audit/layer1_extract/attribute_checks.py:218-275 | a sign-off passes if and only if its cell is there and has an em dash |
| CheckVerdicts.TieOutIff | src/agentic_audit/layer1_extract/attribute_checks.py:103-147 | DC-2.A passes if and only if both totals parse, are at most one apart on either side, and the tie flag says Yes |
| CheckVerdicts.VarianceIff | src/agentic_audit/layer1_extract/attribute_checks.py:150-215 | DC-2.B and C, cell by cell: every row marked Yes must be explained, and every explained one tied |
| CheckVerdicts.BillingIff | src/agentic_audit/layer1_extract/attribute_checks.py:278-318 | DC-9.C passes if and only if all three cells parse and the fee is at most one away from asset times rate, on either side |
| CheckVerdicts.RateChangeIff | src/agentic_audit/layer1_extract/attribute_checks.py:321-383 | DC-9.D is not applicable if and only if the prior cell says so; otherwise it passes if and only if both rates parse and either agree up to 1e-9 or come with a real reference |
| CheckVerdicts.RollForwardIff | src/agentic_audit/layer1_extract/attribute_checks.py:386-447 | DC-9.E passes if and only if the four balances parse and the closing one is at most one away from opening plus additions less retirements |
| CheckVerdicts.OwnershipIff | src/agentic_audit/layer1_extract/attribute_checks.py:450-489 | DC-9.F passes if and only if every partner row has a share that parses and the shares sum to 100 up to 0.01 |
| CheckVerdicts.LpRowsAre | src/agentic_audit/layer1_extract/attribute_checks.py:450-489 | the partner rows are the rows of the sheet from 26 on that have a name |
| CheckVerdicts.NotesIff | src/agentic_audit/layer1_extract/attribute_checks.py:103-489 | every check that does not pass carries a note, and one that passes carries none |
| CheckVerdicts.SetCellOverwrites | tests/unit/layer1_extract/test_attribute_checks.py:215-240 | setting one cell of a finished sheet leaves the same sheet with that cell replaced |
| CheckVerdicts.OverwrittenFee | src/agentic_audit/layer1_extract/attribute_checks.py:278-318 | on a written workpaper whose fee cell holds any integer, C fails if and only if that is more than one away from asset times rate, above or below |
| CheckVerdicts.OverwrittenClosing | src/agentic_audit/layer1_extract/attribute_checks.py:386-447 | the same for the closing balance and E |
| CheckVerdicts.OverwrittenShare | src/agentic_audit/layer1_extract/attribute_checks.py:450-489 | on a written workpaper with one share replaced by any integer, F fails if and only if it is another share |
| CheckVerdicts.OverwrittenSignoff | src/agentic_audit/layer1_extract/attribute_checks.py:243-275 | on a written workpaper with any text in a sign-off cell, A or B fails if and only if the text has no em dash |
| CheckVerdicts.OverwrittenReviewer | src/agentic_audit/layer1_extract/attribute_checks.py:218-240 | the same for the reviewer cell of DC-2 and D |
| CheckVerdicts.OverwrittenFeed | src/agentic_audit/layer1_extract/attribute_checks.py:103-147 | on a written DC-2 workpaper with any integer as the feed total, A fails if and only if it is more than one away from the workbook total or the boundary defect is planted |
| AttributeChecks.AboveThresholdRows | src/agentic_audit/layer1_extract/attribute_checks.py:150-159 | the appending loop lists exactly the variance rows marked Yes, in order |
| AttributeChecks.VarianceChecks | src/agentic_audit/layer1_extract/attribute_checks.py:162-215 | B fails if and only if some above-threshold row lacks an explanation; C if and only if some above-threshold row has one that does not tie |
| AttributeChecks.OwnershipShares | src/agentic_audit/layer1_extract/attribute_checks.py:450-486 | the loop over limited partners stops at the first unparseable share and otherwise compares their sum with 100 |
| AttributeChecks.DispatchIsTotal | src/agentic_audit/layer1_extract/attribute_checks.py:492-520 | dispatch finds a check exactly for the attributes the control defines |
| Dc2.Render | src/agentic_audit/generator/engagement_writers/dc2.py:55-171 | the imperative writer, flag and all, leaves exactly the specified sheet: in particular only the first above-threshold row loses its explanation |
| Dc2.WriteStreams | src/agentic_audit/generator/engagement_writers/dc2.py:122-157 | the row loop with the once-only flag writes each stream row as specified |
| Dc2.TotalsTie | src/agentic_audit/generator/engagement_writers/dc2.py:84-117 | on the written sheet the workbook total is the sum of the five current amounts, each variance is current less prior, and the feed total is off by the divergence exactly for the boundary defect |
| Dc2.WrittenWorkpaperChecks | src/agentic_audit/generator/engagement_writers/dc2.py:74-164 | for every draw: A fails if and only if the boundary defect is planted, B and C if and only if their own defect is planted and some row is above threshold, D passes, and the reviewer is recovered |
| Dc2.AgreesWithGoldIff | src/agentic_audit/models/engagement_gold_answer.py:115-153 | Layer 1 agrees with the gold answer on every attribute if and only if the defect needs no above-threshold row or there is one |
| Dc2.AboveIff | src/agentic_audit/generator/engagement_writers/dc2.py:77-86 | for a positive prior and a drift of at least -1, a row is above threshold if and only if prior times drift, rounded down, exceeds a twentieth of the prior in either direction |
| Dc2.AgreesWithGoldOnDraws | src/agentic_audit/generator/engagement_writers/dc2.py:77-86 | agreement with the gold answer in terms of the draws: the defect needs no above-threshold row, or some stream moves that far |
| Dc2.QuietStreams | src/agentic_audit/generator/engagement_writers/dc2.py:79-85 | the witness that the comment on line 79 is not guaranteed: without drift no row is above threshold; when one is, is AboveIff |
| Dc9.Render | src/agentic_audit/generator/engagement_writers/dc9.py:57-155 | the imperative writer leaves exactly the specified sheet |
| Dc9.SignoffVerdicts | src/agentic_audit/generator/engagement_writers/dc9.py:77-88 | both sign-off checks pass and the parser returns the drawn initials and dates |
| Dc9.BillingTies | src/agentic_audit/layer1_extract/attribute_checks.py:278-318 | the truncated fee ties within 1 of asset times rate, for every integer asset value |
| Dc9.RollForwardTies | src/agentic_audit/layer1_extract/attribute_checks.py:386-447 | the roll-forward ties for every opening balance, addition and asset value |
| Dc9.OwnershipTies | src/agentic_audit/layer1_extract/attribute_checks.py:450-486 | the printed shares parse and sum to 100 |
| Dc9.OwnershipOf | src/agentic_audit/layer1_extract/attribute_checks.py:450-489 | whatever else a sheet holds, F passes if and only if the three integer shares of its partner rows sum to 100 |
| Dc9.RateChangeVerdict | src/agentic_audit/layer1_extract/attribute_checks.py:321-383 | D is n/a in Q1, pass in Q3, and in Q2 and Q4 fails if and only if the amendment is missing by defect |
| Dc9.WrittenWorkpaperChecks | src/agentic_audit/generator/engagement_writers/dc9.py:77-153 | for every asset value and draw A, B, C, E and F pass and D has the verdict its quarter and defect call for |
| Dc9.AgreesWithGoldIff | src/agentic_audit/models/engagement_gold_answer.py:115-153 | Layer 1 agrees with the gold answer if and only if the quarter is not Q1, the defect is not the figure mismatch, and a missing amendment is planted only where the rate changes |
| GoldAnswers.BuildQuarterGoldAnswer | src/agentic_audit/models/engagement_gold_answer.py:115-153 | the filled dictionary covers exactly the control's attributes, fails exactly the defect's attribute, and effectiveness means none fails |
| GoldAnswers.FailingIsDefined | src/agentic_audit/models/engagement_gold_answer.py:41-51 | a defect legal on a control fails an attribute that control has |
| Orchestrator.ExtractsIff | src/agentic_audit/layer1_extract/orchestrator.py:161-210 | whatever the rows hold, extraction yields a record its model accepts; it fails if and only if there is no row or the engagement, the file hash or the resolved run id (the caller's, else a fresh one) is empty |
| Orchestrator.CoversTheControl | src/agentic_audit/layer1_extract/orchestrator.py:192-195 | the checks are exactly the control's attributes, in order |
| Orchestrator.RecordIs | src/agentic_audit/layer1_extract/orchestrator.py:182-210 | the record, field by field: triple, run, lineage of the rows, and per attribute the status, notes and cell references of its own check |
| Orchestrator.UnreadableSignOff | src/agentic_audit/layer1_extract/orchestrator.py:69-158 | a sign-off cell that is missing or cannot be read becomes two question marks at ingest time, and a readable one its initials and date |
| Orchestrator.SurvivesSilver | src/agentic_audit/layer1_extract/orchestrator.py:161-210 | an extracted record written to any well-formed silver table is read back with every check as extracted, its status, notes and stored dictionary included |
| Orchestrator.WrittenDc9Arrives | src/agentic_audit/layer1_extract/orchestrator.py:85-210 | a written DC-9 workpaper, ingested, extracted, stored and read back, still carries the drawn initials and dates and passes everywhere but D, whose verdict is the planted one |
| Orchestrator.WrittenDc2Arrives | src/agentic_audit/layer1_extract/orchestrator.py:85-210 | a written DC-2 workpaper arrives with its reviewer, the placeholder preparer and, where a row is above threshold or none is needed, the gold verdict on every attribute |
| Orchestrator.RunDc9 | src/agentic_audit/layer1_extract/orchestrator.py:161-210 | render, ingest, extract, write and read in one imperative run give that record and keep the table well formed |
| Amendments.RatesOfCheck | src/agentic_audit/layer3_agents/tools.py:109-162 | the two rates recovered from a check are those of its two cells, and an amendment field is present exactly when they differ |
| Amendments.SameJudgement | src/agentic_audit/layer3_agents/tools.py:304-312 | the upper-case test of Layer 1 and the lower-case test of the tool agree on every ASCII text except an oddly spelled N/A |
| Amendments.ReportsAmendmentIff | src/agentic_audit/layer3_agents/tools.py:315-337 | on a check built from two parsable rates the tool reports an amendment if and only if the rates differ, the check passed and the text is not an oddly spelled N/A; and it reports the cell's own text |
| Amendments.ResolvesIff | src/agentic_audit/layer3_agents/tools.py:271-338 | which texts are reported as an amendment: the structured field's, or else notes that mention one in four ways, and only when not blank, not saying that none was filed and not beginning with N/A |
| Amendments.LowerCaseNAIsMissed | src/agentic_audit/layer3_agents/tools.py:304-312 | the exception is real: on "n/a" Layer 1 accepts a reference that the tool does not report |
| Orchestrator.FallsBackOnEmbeddedPrior | src/agentic_audit/layer3_agents/tools.py:424-445 | whatever the workpaper holds: when its stored check carries two rates and the prior quarter's evidence is missing or silent, the tool compares exactly the two cells Layer 1 compared, and its difference is within the tolerance if and only if Layer 1 found no rate change |
| Amendments.ToolMatchesTheCorpus | src/agentic_audit/layer3_agents/tools.py:315-337 | on the check of every written and ingested DC-9 workpaper after Q1 the tool finds the two scheduled rates, and an amendment if and only if the rate changed and it is not missing by defect; the text is the cell's own |
| RateTool.StoredCheckReads | src/agentic_audit/layer3_agents/tools.py:109-162 | from the JSON dictionary a rate check is stored with, the tool reads exactly the rates and the amendment Layer 1 put in |
| RateTool.CoercesNumbers | src/agentic_audit/layer3_agents/tools.py:109-142 | numbers count as themselves, truth values as 1 and 0, a numeral in a text like the number it spells, null as nothing |
| RateTool.CoercesDictionaries | src/agentic_audit/layer3_agents/tools.py:140-142 | a dictionary counts as its current rate, and without one as nothing |
| RateTool.ComparisonIs | src/agentic_audit/layer3_agents/tools.py:341-472 | for any two records: whose check each answer comes from, the prior rate's fallback, the difference, and the relative change exactly for a positive prior rate |
| RateTool.EncodedIsWellFormed | src/agentic_audit/layer1_extract/attribute_checks.py:358-383 | that dictionary is one JSON gives back unchanged |
| Orchestrator.StoredRateCheck | src/agentic_audit/layer3_agents/tools.py:315-337 | whatever the workpaper holds, the tool reads from the record read back from silver what Layer 1 found |
| Orchestrator.ToolOnStoredEvidence | src/agentic_audit/layer3_agents/tools.py:341-472 | for every written DC-9 workpaper after Q1, read back from silver, next to any prior record whose rate check is silent or carries the scheduled rate: the tool answers both scheduled rates, their absolute and relative difference, and an amendment if and only if the rate changed and the defect is not the missing amendment |
| Orchestrator.WrittenPriorKnows | src/agentic_audit/layer3_agents/tools.py:424-433 | the stored record of every written DC-9 workpaper can serve as the prior record: Q1 carries no rate, the others theirs |
| Text.CaseInsensitiveSearch | src/agentic_audit/layer3_agents/tools.py:309-311 | searching in upper case and in lower case finds a phrase at the same places in any ASCII text |
| Json.StringRoundTrip | src/agentic_audit/layer1_extract/silver_writer.py:92-103 | escaping and unescaping gives every string back (section 7 of RFC 8259) |
| Json.NumberRoundTrip | src/agentic_audit/layer1_extract/silver_writer.py:92-103 | printing and parsing gives every number back, keeping integers and floats apart (section 6 of RFC 8259) |
| Json.LoadsDumps | src/agentic_audit/layer1_extract/silver_writer.py:92-103 | `loads` undoes `dumps` on every value whose object keys are sorted, nested ones included |
| Keys.JoinedKeyInjective | src/agentic_audit/layer1_extract/silver_writer.py:78-89 | the comma-joined and the bar-joined key identify all four fields for any engagement id, separators included |
| Keys.EvidenceIdFits | src/agentic_audit/layer1_extract/silver_writer.py:78-89 | the id of any digest is a non-negative signed 64-bit number |
| Silver.NarrativeRoundTrip | src/agentic_audit/layer2_narrative/silver_reader.py:209-236 | the narrative column gives back the attribute check it was written from |
| Silver.FindMerged | src/agentic_audit/layer1_extract/silver_writer.py:115-133 | after a MERGE a key reads as its source row when there is one, and as before otherwise |
| Silver.MergeKeepsKeysUnique | src/agentic_audit/layer1_extract/silver_writer.py:115-133 | a MERGE of distinct rows keeps the natural key unique |
| Silver.MergeIsIdempotent | src/agentic_audit/layer1_extract/silver_writer.py:115-133 | merging the same rows again changes nothing |
| SilverReader.WriteKeepsTableOk | src/agentic_audit/layer1_extract/silver_writer.py:151-211 | writing keeps keys unique and attributes within their control |
| SilverReader.ReadAfterWrite | src/agentic_audit/layer2_narrative/silver_reader.py:120-206 | reading right after writing returns that record with its attributes sorted, from exactly 4 or 6 rows that all carry its envelope, whatever the table held before |
| SilverReader.OtherTriplesUntouched | src/agentic_audit/layer1_extract/silver_writer.py:197-211 | writing one triple leaves the rows and the reading of every other triple as they were |
| SilverReader.RewriteIsIdempotent | src/agentic_audit/layer1_extract/silver_writer.py:197-211 | writing a record twice is writing it once |
| SilverReader.ReadsLastWrite | src/agentic_audit/layer2_narrative/silver_reader.py:120-206 | after any sequence of writes a triple reads as the last record written for it, or as before if there is none |
| SilverReader.ValidCoverage | src/agentic_audit/models/evidence.py:116-137 | the record validator forces exactly one check for each of the control's attributes and none for any other |
| Supervisor.RunLength | src/agentic_audit/layer3_agents/supervisor.py:199-252 | the number of graph steps is fixed by the wiring and the cap, whatever the agents return, with cap minus iterations as the measure |
| Supervisor.VisitsFromTheStart | src/agentic_audit/layer3_agents/supervisor.py:518-542 | exactly three sub-agent visits when all agents are wired and the cap allows it, exactly the cap otherwise |
| Supervisor.SevenSteps | src/agentic_audit/layer3_agents/supervisor.py:744-747 | with cap 3 every run takes 7 graph steps, under the recursion limit of 10 |
| Supervisor.MergeOverwrites | src/agentic_audit/layer3_agents/supervisor.py:265-396 | a channel a node writes takes the new value, one it leaves out keeps the old, and the log only grows |
| Supervisor.ConcludesIff | src/agentic_audit/layer3_agents/supervisor.py:199-252 | a run concludes if and only if all agents and the judge are wired, the cap allows three visits, the judge says pass and the validation confidence is at least 0.7; otherwise it escalates |
| Supervisor.FinalCounts | src/agentic_audit/layer3_agents/supervisor.py:265-396 | the recorded iterations are the visits made, and the confidence stays what it was unless a narrative landed |
| Supervisor.JudgedAtMostOnce | src/agentic_audit/layer3_agents/supervisor.py:299-305 | the judge is called once when everything is wired and never otherwise |
| Supervisor.OutputsComeFromTheAgents | src/agentic_audit/layer3_agents/supervisor.py:265-396 | for every wiring and cap: an output is in the final state if and only if its agent and all before it are wired and the cap lets it run, and then it is that agent's result on the state it was handed; the judgement is the judge's on the state that carries all three |
| Supervisor.TraceIsFaithful | src/agentic_audit/layer3_agents/supervisor.py:265-396 | in every state of every run the log is a proper extension of the previous one, supervisor and agent entries alternate with iterations 0,1,1,2,2,3,3, and logged route, recomputed edge and status agree |
| DecisionRow.FinalState.EnsureTerminalNarrative | src/agentic_audit/layer3_agents/supervisor.py:990-1009 | in place, an escalated state without a narrative gets the canned one and every other state stays |
| DecisionRow.EveryRunIsRecorded | src/agentic_audit/layer3_agents/supervisor.py:868-940 | every run ends in a row the model accepts if and only if its identifiers are non-empty; pass means concluded and ACCEPT, fail concluded and ESCALATE, uncertain everything else |
| DecisionRow.CompleteRow | src/agentic_audit/layer3_agents/supervisor.py:917-938 | the row of a complete run, field by field: the narrative agent's text, citations and recommendation, the validation's confidence, 3 iterations, the last log, and the judge's verdict and confidence or neither |
| DecisionRow.DegradedRow | src/agentic_audit/layer3_agents/supervisor.py:917-938 | the row of any other run: the canned escalation text, no citation, confidence 0, as many iterations as the cap, uncertain, no judgement |
| DecisionRow.ScopeNames | src/agentic_audit/layer3_agents/supervisor.py:703-728 | an admissible investigation's row names its run, engagement, control, attribute, quarter, exception type and deployment |
| DecisionRow.RecordedPass | src/agentic_audit/models/layer3_decision.py:60-100 | a recorded pass means agents and judge were wired, the judge passed it, confidence reached the threshold and the narrative recommends acceptance |
| DecisionRow.RecordedPassIsGrounded | src/agentic_audit/layer3_agents/supervisor.py:868-940 | a recorded pass never ships an ungrounded number: every standalone number of its text lies in one token grounded in a source the narrative agent was given |
| DecisionRow.PromptVersionIsSet | src/agentic_audit/layer3_agents/supervisor.py:831-848 | the composite prompt version is never empty, whatever is wired, so it never makes a row fail |
| DecisionRow.PromptVersionNames | src/agentic_audit/layer3_agents/supervisor.py:831-848 | the composite names the three versions in the order of the agents |
| DecisionRow.UnwiredIsNone | src/agentic_audit/layer3_agents/supervisor.py:831-848 | an agent that is not wired is named none |
| DecisionRow.EligibilityTablesAgree | src/agentic_audit/layer3_agents/supervisor.py:140-190 | a pair has an exception type if and only if a failed check on it is eligible |
| DecisionRow.DecisionsTable.RunInvestigation | src/agentic_audit/layer3_agents/supervisor.py:677-787 | an inadmissible request changes nothing; an admissible one appends exactly one row, that of its run |
| Telemetry.UsageRecorder.Record | src/agentic_audit/models/telemetry.py:115-119 | the totals grow by exactly the recorded call |
| Telemetry.CostAdds | src/agentic_audit/models/telemetry.py:49-65 | pricing the totals is the same as adding up the priced calls |
| Telemetry.PriceList | src/agentic_audit/models/telemetry.py:37-42 | the price of a thousand prompt and completion tokens of either model, and no price for any other name |
| Telemetry.CostOfACall | src/agentic_audit/models/telemetry.py:49-65 | a call costs its prompt tokens at the prompt price and its completion tokens at the completion price |
| Telemetry.CountIs | src/agentic_audit/layer3_agents/narrative_agent.py:669-692 | a usage block counts as nothing unless both counts are there, is refused when one is negative, and otherwise counts as it is, zeros included |
| Telemetry.ChatSpanIs | src/agentic_audit/layer3_agents/narrative_agent.py:645-667 | the span of a chat completion shows each count, 0 for a missing one, and their price |
| Telemetry.ClosedSpan | src/agentic_audit/layer3_agents/extraction_agent.py:522-559 | the span of a callback shows both counts and their price or neither, whether it succeeded, and the milliseconds since its own start |
| Telemetry.CostRowAcceptedIff | src/agentic_audit/layer3_agents/supervisor.py:793-828 | the row validator never rejects the tokens or the cost: a row is refused if and only if a name is empty or the clock ran backwards, so the clamp on the latency changes no accepted row |
| Telemetry.CostRowIs | src/agentic_audit/layer3_agents/supervisor.py:793-828 | the cost row, field by field: the recorder's counts and their sum, their price or nothing for an unknown model, and the elapsed whole milliseconds, never negative |
| Telemetry.ChatAgent.TracedChatCompletion | src/agentic_audit/layer3_agents/narrative_agent.py:629-692 | one chat completion: one span and at most one recording, and a raise exactly on counts the model rejects |
| Telemetry.CallbackHandler.OnStart | src/agentic_audit/layer3_agents/extraction_agent.py:508-511 | a start opens (or replaces) the span of its id and nothing else |
| Telemetry.CallbackHandler.OnEnd | src/agentic_audit/layer3_agents/extraction_agent.py:473-497 | an end records both counts or neither and closes the span of its id, if there is one |
| Telemetry.CallbackHandler.OnError | src/agentic_audit/layer3_agents/extraction_agent.py:499-506 | an error closes the span of its id without tokens |
| Telemetry.CallbackHandler.FinalizeSpan | src/agentic_audit/layer3_agents/extraction_agent.py:522-559 | the span leaves the table and is exported with the time since its own start; without an entry nothing happens |
| Telemetry.OpenIffNeverEnded | src/agentic_audit/layer3_agents/extraction_agent.py:456-559 | after any sequence of callbacks a span is open if and only if its id was started and not ended afterwards; so bracketed sequences leave none |
| Telemetry.SpansConserved | src/agentic_audit/layer3_agents/extraction_agent.py:456-559 | every started span is exported, still open, or was replaced by a start with the same id |
| Telemetry.CostConserved | src/agentic_audit/layer3_agents/extraction_agent.py:473-559 | for any calls, exported span cost plus the cost of usage without a span equals the cost of the recorded totals plus the cost of half-reported replies |
| Telemetry.SpanCostsSumToTheRow | src/agentic_audit/layer3_agents/narrative_agent.py:645-692 | with bracketed callbacks and both or neither count in every reply, the span costs sum to the cost of the recorded totals |
| Telemetry.Investigate | src/agentic_audit/layer3_agents/supervisor.py:703-828 | one recorder is injected into every wired agent; from a fresh one, the row's tokens are the sum over all calls that carry usage, and the row is written unless a name is empty or the clock ran backwards |
| EvidenceCache.Get | scripts/run_judge_sweep.py:127-134 | read on a miss, remember a success, raise without an entry on a failure |
| EvidenceCache.LookupStaysFaithful | scripts/run_judge_sweep.py:127-134 | a cached entry is always the answer of a successful read, and a triple that was read successfully is never read again |
| EvidenceCache.ReadsOnce | scripts/run_judge_sweep.py:123-134 | whatever the reader answers, each triple is read successfully at most once |
| EvidenceCache.CacheIsTransparent | scripts/run_judge_sweep.py:120-198 | with a deterministic reader, and any row failing anywhere, the cached loop keeps the same rows in the same order as reading afresh for every row |
| EvidenceCache.OneCallPerTriple | scripts/run_layer2.py:135-152 | a reader that never raises is called exactly once for every triple that occurs |
| JudgeSweep.RunSweep | scripts/run_judge_sweep.py:93-198 | the loop appends exactly the specified rows, its total is their number and its three counters are the verdict counts |
| JudgeSweep.JudgeOne | scripts/run_judge_sweep.py:136-181 | a row is appended only when definition, gold verdict, judge, row model and insert all succeed |
| JudgeSweep.CountsAddUp | scripts/run_judge_sweep.py:180-181 | pass, fail and uncertain add up to the number of rows |
| JudgeSweep.SameRowsAsFreshReads | scripts/run_judge_sweep.py:110-134 | the sweep appends the rows of reading the evidence afresh for every narrative |
| JudgeSweep.RowsComeFromNarratives | scripts/run_judge_sweep.py:136-181 | every row is the outcome of some narrative on the evidence of that narrative's triple, field by field: its scope and fact-check verdict, the gold verdict of that scope, the judge's own answer, the judge's run, version and deployment, and the narrative's call id or else its generation run |
| JudgeSweep.OutcomeAcceptedIff | scripts/run_judge_sweep.py:151-178 | of a valid judgement the row model refuses an empty name and nothing else |
| JudgeSweep.DefinitionNamesItsPair | scripts/run_judge_sweep.py:84-90 | a definition exists for exactly the attributes of the control and begins with the pair it defines |
| Layer2Sweep.CombinationsExact | src/agentic_audit/layer2_narrative/sweep.py:45-59 | exactly 32 combinations: every narratable attribute of every quarter of both controls, each once |
| Layer2Sweep.GenerateOne | scripts/run_layer2.py:154-173 | one row is generated, checked and merged with its verdict, or nothing is written |
| Layer2Sweep.GeneratedIs | src/agentic_audit/layer2_narrative/generator.py:288-330 | when a narrative is generated and what it carries, field by field: the model's answer under the scope of the evidence, the ids of run and call, and no verdict yet |
| Layer2Sweep.SourceIdText | src/agentic_audit/layer2_narrative/generator.py:514-524 | the source id names engagement, control, attribute and quarter, in this order |
| Layer2Sweep.NarratableIs | src/agentic_audit/layer2_narrative/generator.py:288-297 | the narratable attributes are all but DC-2.B and DC-9.D, which are investigated instead |
| Layer2Sweep.RunSweep | scripts/run_layer2.py:117-198 | the table is the old one with the kept rows merged in, and the counters are the number of rows and of passes |
| Layer2Sweep.EightReads | scripts/run_layer2.py:135-152 | a reader that never raises serves the 32 rows with 8 reads, one per control and quarter |
| Layer2Sweep.KeptRows | scripts/run_layer2.py:144-184 | over a silver table whose reader may raise at any call, kept rows have distinct merge keys, belong to their combination, and carry the verdict of their own text on the stored evidence; passed means no issue |
| Layer2Sweep.MergedRows | src/agentic_audit/layer2_narrative/gold_writer.py:55-82 | after merging rows with distinct keys each of them is in the table as written, and all other rows are untouched |
| ReFactCheck.SelectedExact | scripts/re_fact_check.py:93-105 | the selection is exactly the rows of the engagement and version, each once |
| ReFactCheck.RunRecheck | scripts/re_fact_check.py:119-224 | the loop ends with the specified table and counts, or stops at the first exception with the updates made before it |
| ReFactCheck.CompletedRun | scripts/re_fact_check.py:162-224 | a run completes if and only if every row can be read, checked and written; then it counted all rows, passes and changes, and rewrote the verdict of the selected rows and of no other, or of none when dry |
| ReFactCheck.SecondRunChangesNothing | scripts/re_fact_check.py:162-224 | a second run on the same silver with the same checker counts no change and leaves the table as it is |
| ReFactCheck.SweepVerdictsStand | scripts/re_fact_check.py:162-224 | a re-check right after a Layer-2 sweep overturns no verdict that sweep wrote |
| BaselineStats.WilsonContainsTheRate | scripts/run_layer3_baseline.py:212-221 | for 0 <= passes <= total, total >= 1 and every z >= 0: 0 <= lo <= passes/total <= hi <= 1, and the clamps change nothing |
| BaselineStats.WilsonIsMonotone | scripts/run_layer3_baseline.py:212-221 | neither end of the interval decreases when passes grow |
| BaselineStats.WilsonInvertsTheScoreTest | scripts/run_layer3_baseline.py:212-221 | the interval is the inverse of the score test: a rate x lies in it if and only if total (p - x)^2 <= z^2 x (1 - x), for every x |
| BaselineStats.EmptySample | scripts/run_layer3_baseline.py:214-215 | an empty sample has the interval [0, 0] |
| BaselineStats.HalfWidthLipschitz | scripts/run_layer3_baseline.py:217-220 | the half width changes by no more than the rate does |
| BaselineStats.P95Covers | scripts/run_layer3_baseline.py:224-230 | the percentile is one of the values, at least 95% of the values do not exceed it, and fewer than 95% lie below it |

## Left out

- Text is ASCII: letter, digit, space and case classes are those of ASCII, apart from the em dash of the sign-off cells. Unicode normalisation and case folding are not modelled.
- Floating point: numbers are exact decimals or reals. `str(float(d))` is the shortest decimal of d itself, which is what Python prints for up to 15 significant digits; overflow to infinity is not modelled, and neither are `nan`, `inf` and digit groups with underscores, which `float` also reads from a cell. Tolerances (1e-9, 0.01, 1.0) are applied to exact values.
- The printed text of the rounded percentage cell of a DC-2 row is a parameter, because no check reads it.
- The fuzzy entity score of rapidfuzz is an arbitrary predicate, and the two stopword lists are parameters; nothing proved depends on either.
- SHA-256 is an uninterpreted function: the theorems are about the bytes that are hashed.
- Evidence as one string (`model_dump_json`) is a parameter of the checker.
- Prompt texts, the ReAct loop, tool choice, Azure, LangGraph scheduling and checkpointing, tenacity retries, OpenTelemetry exporters and Databricks SQL: a model's replies are arbitrary, a run visits the nodes the edges name, a table is a sequence or a map, and a statement either goes through or raises.
- Timestamps, run ids and call ids are values handed in; in the supervisor's log they are dropped.
- Sub-agents and the judge that raise inside the graph: the exception would end the run before a row is built.
- Calling the narrative agent before extraction and validation have run, which raises at once.
- Telemetry: counts of another type than integers are not modelled; the error span the tracing decorator emits when a call raises carries no tokens and is not counted; the judge has a recorder of its own.
- Telemetry.SpanCostsSumToTheRow: one deployment for all agents, as the cost row records only one.
- Silver: the seven envelope columns of a row are all null or all present, a lone surrogate in a string and the NaN and Infinity literals are not modelled, and neither is `default=str` for values JSON has no form for.
- Checks: the wording of notes is abbreviated; cell references are a parameter, and so are the extracted dictionaries that no later layer reads. The dictionary of the rate check is modelled.
- Numbers in the evidence are taken as the scanner takes them: a sign in front (`-5`), a unit or further digits after a space, and dates, ranges and ratios written with other characters than points and commas are not looked at, so `-5` counts as 5.
- A blank cell may survive a save and load or vanish; both are covered.
- Spreadsheet files, zip packing, document properties, the TOC sheets, the scenario catalogue and corpus discovery.
- The reviewer-comments tool and the rest of the tool surface beyond rates and amendments.
- The gold-answer JSON files, loading the ToC directory into the judge's lookup, and command lines.
- The cross-file evidence texts of a gold answer.
- Load tests, benchmarks, diagnostics scripts and infrastructure files.
