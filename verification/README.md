# Verified models of the Python tools

OpenBFME's tools recompute, match and check what the original game does. This project models the
algorithmic ones in Dafny and proves what they are for. `dafny verify dfyconfig.toml` checks it all.

| files | tool |
|---|---|
| `Lcs`, `Indel`, `Lis`, `Bisect` | bit-parallel longest common subsequence and the distance it measures, patience-sorted increasing chains |
| `Matching`, `Candidates`, `StringVotes`, `MatcherSteps`, `Schedule`, `Priorities`, `BinaryMatcher` | the multi-tier function matcher |
| `Ledger` | byte-painted provenance lanes |
| `Structure`, `Templates`, `Declarations`, `Includes`, `IncludedLines` | the object oracle: bracket parse, module templates, include expansion |
| `MacroEval`, `MacroMeaning` | the macro evaluator that splices tokens into a deque |
| `Bezier` | flight paths: forward differences and length by subdivision |
| `Rounding`, `Period`, `Generators`, `DrawnValues` | rounding to 24 bits, the two random generators, values drawn from them |
| `Huffman` | canonical codes for the Huffman tables of ISO 11172-3 Table B.7 |
| `Bytes`, `GameCommands`, `RelayLog`, `LogReader` | the anonymising relay-log export, and the second reader of its output |
| `WatchedGame`, `WatchLoop` | the integrity watch loop |
| `Ima` | IMA ADPCM blocks under two arithmetics |
| `Polygon`, `PathGrid` | the even-odd polygon test, water corners and pinch passes of the path oracle |
| `PyInt`, `Sorting`, `Selections`, `Options` | Python's unbounded bitwise integers, its stable sort, conditional list comprehensions, and `None` |

A method follows the loops and branches of the code and is proved against a function or a predicate;
the lemmas then say what that function means.

Where the code and its own description differ, or a natural expectation fails, the model follows the
code and says exactly when the expectation holds:

- `get_value_real` can exceed `hi`: `DrawnValues.UpperBoundExceeded` names an interval and a seed of each
  generator, and `DrawnValues.Value24NeverAboveIff` says for every interval whether any seed does.
- `Ledger.status` describes the reported lane as one covering 95 percent of the extent. The code asks
  for 95 percent covered by any lane and reports the largest one (`Ledger.ReportedLaneMayBeAMinority`);
  `Ledger.ReportedLaneCoversIff` says for all extents when the description holds.
- `classify` lets the last corner with water deep enough decide between water and deep water, not the
  deepest one (`PathGrid.DeepestNeedNotDecide`); `PathGrid.DeepestDecidesIff` says for all corners when
  the two agree.
- The linear generator does not draw every word (`Generators.LcgMissesTwo`), so `get_value` misses values
  of wide intervals (`DrawnValues.LcgMissesAValue`). `Generators.LcgDrawsIff` says which words it draws,
  and `DrawnValues.LcgReachesIff` which values of an interval come from it.
- A template that no ChildObject block touches is free of outdated inherited modules
  (`Templates.BuiltNoOutdated`); one that such a block touches need not be
  (`Templates.ChildKeepsOutdated`), and `Templates.ChildKeepsNoOutdatedIff` says which ChildObject
  declarations keep a template so.

## Model

| member | source | states |
|---|---|---|
| `Lcs.LcsIsLongestCommon` | tools/re/match_rotwk.py:39-40 | The table value is the length of a longest common subsequence: some common subsequence has it, none is longer |
| `Lcs.RowAdvances` | tools/re/match_rotwk.py:46-49 | The word operation, from any bit up and with any incoming borrow, turns the row word of one table column into that of the next, negative intermediate values included |
| `Lcs.RowCounts` | tools/re/match_rotwk.py:46-50 | The bits set in the row word from height i up add up to the table's growth from i to the top |
| `Lcs.BuildMasks` | tools/re/match_rotwk.py:43-45 | The mask of every token has exactly the bits of its positions |
| `Lcs.LcsLen` | tools/re/match_rotwk.py:39-50 | The bit-parallel loop returns the longest common subsequence length of any two token sequences, swapped or not |
| `Lcs.ComputeSimilarity` | tools/re/match_rotwk.py:53-56 | The ratio that the score lemma speaks about, 1 for two empty sequences |
| `Lcs.SimilarityIsAScore` | tools/re/match_rotwk.py:53-56 | The score is symmetric, lies in [0, 1], and is 1 exactly for equal sequences |
| `Indel.SimilarityIsIndel` | tools/re/match_rotwk.py:53-56 | What similarity leaves to 1, times both lengths, is the least number of insertions and deletions from one sequence to the other |
| `Bisect.BisectLeft` | tools/re/match_rotwk.py:71 | On a sorted list everything before the result is below x and everything from it on is not |
| `Bisect.BisectRight` | tools/re/match_rotwk.py:107 | On a sorted list everything before the result is at most x and everything from it on is above |
| `Lis.ChainWithinRank` | tools/re/match_rotwk.py:67-78 | No strictly increasing chain is longer than the rank of its last element |
| `Lis.Deal` | tools/re/match_rotwk.py:69-78 | After the dealing loop every pile top, its index and every parent pointer belong to ranks that grow along every chain |
| `Lis.LisPairs` | tools/re/match_rotwk.py:67-83 | The result is a subsequence of the pairs with strictly increasing t, and no such subsequence is longer |
| `Candidates.AnchorsAscend` | tools/re/match_rotwk.py:99-104 | Anchors run upwards in both binaries, strictly in the target, and each is the address pair of a firm match of at least 16 bytes |
| `Candidates.AnchorsAreLongest` | tools/re/match_rotwk.py:67-104 | No firmly matched functions of 16 bytes and more, of which neither side runs downwards, are more than the anchors |
| `Candidates.PredictBetween` | tools/re/match_rotwk.py:106-112 | Between two neighbouring anchors the prediction keeps the distance to the lower one, and names the targets of both |
| `Candidates.PredictBefore` | tools/re/match_rotwk.py:106-109 | Before the first anchor the prediction keeps the distance to it; without anchors it is the address |
| `Candidates.GapKeepsLinkOrder` | tools/re/match_rotwk.py:197-203 | A gap of few targets offers exactly the targets strictly between the two anchors, so a match there keeps link order |
| `Candidates.WideRangeIsNearest` | tools/re/match_rotwk.py:196-207 | Without a narrow gap a target is tried exactly when fewer than the given number lie between it and the prediction |
| `Matching.FirmMatchesAreInjective` | tools/re/match_rotwk.py:114-117 | Two functions with non-ambiguous matches to one target are the same function |
| `Matching.LosersAreBlocked` | tools/re/match_rotwk.py:241-246 | A proposal that loses has an end that was used before, or one that an earlier winner of the list uses |
| `Matching.WinnersMatch` | tools/re/match_rotwk.py:242-246 | The accepted proposals share no end with one another nor with anything used before |
| `Matching.AcceptAllEntries` | tools/re/match_rotwk.py:242-246 | Accepting the winners adds exactly their entries to both dictionaries and changes no other |
| `Matching.AcceptAllConsistent` | tools/re/match_rotwk.py:114-117 | Accepting winners keeps the reservations the inverse of the firm matches, loses no match and changes no firm one |
| `Candidates.DistIs` | tools/re/match_rotwk.py:239-241 | The distance of a target is how far its address lies before or behind the prediction |
| `Candidates.ScoreIs` | tools/re/match_rotwk.py:173-178 | Shapes of which neither is more than a quarter longer are compared, all others score 0 |
| `Candidates.IndexOfIsLast` | tools/re/match_rotwk.py:92-93 | The index gives the last function at an address, and none exactly where there is none |
| `Candidates.CalleesPairedIff` | tools/re/match_rotwk.py:180-188 | Callees are paired exactly when the blocks have one size and call as many functions, at least one, all matched pairwise |
| `MatcherSteps.RoundIsGreedy` | tools/re/match_rotwk.py:239-246 | A proposal of the sorted list whose ends are free wins, or a winner no later in the order has one of its ends |
| `Schedule.RoundTakesBest` | tools/re/match_rotwk.py:190-246 | After a round every good candidate pair is matched, or an end of it is in a new match with a higher score, or an equal one and better paired callees, nearer target or earlier function |
| `MatcherSteps.ResolvedIsAmbiguous` | tools/re/match_rotwk.py:144-169 | Every function of a resolved group ends up with an ambiguous tier A match |
| `Priorities.NearRangeIsNearest` | tools/re/match_rotwk.py:152-156 | A function of a group tries the eight nearest targets of the group on either side of its prediction |
| `Priorities.GroupTakesNearest` | tools/re/match_rotwk.py:150-164 | Every pair that a group tries is assigned, or one of its ends is, in a pair that is nearer or as near and earlier |
| `Priorities.SharersTakeNearest` | tools/re/match_rotwk.py:160-169 | Every function of a group gets a target of the group and the note for its distance; one that shares gets a nearest target, the first of equals |
| `MatcherSteps.TierAStaysAfter` | tools/re/match_rotwk.py:190-278 | Tiers B, C and D leave what tier A decided as it is |
| `MatcherSteps.RunExtends` | tools/re/match_rotwk.py:280-296 | Between any two points of a run no match is lost and a firm match stays what it is |
| `MatcherSteps.BuildIndex` | tools/re/match_rotwk.py:92-93 | The address index gives the last function at every address, and nothing else |
| `StringVotes.GatherOwners` | tools/re/match_rotwk.py:252-258 | Every string has exactly the functions that hold it |
| `StringVotes.CountVotes` | tools/re/match_rotwk.py:263-266 | Every target gets as many votes as there are long strings that only it and the function hold |
| `StringVotes.BestVote` | tools/re/match_rotwk.py:267-268 | The chosen target has the most votes |
| `BinaryMatcher.Matcher.constructor` | tools/re/match_rotwk.py:87-96 | A fresh matcher holds no match, no reservation and no anchor |
| `BinaryMatcher.Matcher.RebuildAnchors` | tools/re/match_rotwk.py:99-104 | The anchors are the two sides of a longest increasing chain over the sorted firm matches |
| `BinaryMatcher.Matcher.SetAccept` | tools/re/match_rotwk.py:114-117 | Both dictionaries afterwards: an ambiguous tier A match reserves nothing, and a reservation is never overwritten |
| `BinaryMatcher.Matcher.TierA` | tools/re/match_rotwk.py:120-138 | Unique hash pairs are matched firmly, other shared hashes form groups that are matched ambiguously, other functions stay unmatched |
| `BinaryMatcher.Matcher.ResolveGroup` | tools/re/match_rotwk.py:144-169 | Nearest-first among the near candidates of the group, the rest share the nearest target; nothing outside the group moves |
| `BinaryMatcher.Matcher.ResolveAmbiguous` | tools/re/match_rotwk.py:140-170 | All groups are resolved by the anchors of the start; reservations do not change |
| `BinaryMatcher.Matcher.GapCandidates` | tools/re/match_rotwk.py:196-207 | Exactly the free targets between the neighbouring anchors, or around the prediction |
| `BinaryMatcher.Matcher.CalleeCandidates` | tools/re/match_rotwk.py:209-216 | Exactly the free pairs in the same place of two matched functions' call lists |
| `BinaryMatcher.Matcher.ShapeCandidates` | tools/re/match_rotwk.py:218-228 | Exactly the pairs of the one unmatched and the one free function with a shape hash, for shapes of 8 tokens and more |
| `BinaryMatcher.Matcher.TierBRound` | tools/re/match_rotwk.py:190-248 | The round proposes exactly the good candidates, sorts them, accepts the greedy winners and counts them; recorded scores are rounded to thousandths, firm matches stay |
| `BinaryMatcher.Matcher.TierC` | tools/re/match_rotwk.py:251-278 | The private-string proposals of all unmatched functions, most strings first and equal counts in the order of the functions, accepted greedily with scores in thousandths |
| `Priorities.StringsTakeMost` | tools/re/match_rotwk.py:251-278 | For every unmatched function with private strings a target with which it shares most was reserved before, or is now matched to it or to a function that shares no fewer with it |
| `Schedule.StringsInOrder` | tools/re/match_rotwk.py:267-271 | Proposals with equal counts come in the order of their functions: the sort is stable |
| `Matching.RecordedScore` | tools/re/match_rotwk.py:245-275 | A recorded score is in [0, 1] and within half a thousandth of the exact one |
| `BinaryMatcher.Matcher.Phase` | tools/re/match_rotwk.py:287-294 | Rounds until one adds nothing, six at most, each from the view that the one before left |
| `BinaryMatcher.Matcher.Run` | tools/re/match_rotwk.py:280-296 | The whole schedule of phases; the trace is made of the dictionaries of the phases' views, in order, each consistent and extending the one before; tier A's verdicts stand at the end |
| `Schedule.ViewsAreConsistent` | tools/re/match_rotwk.py:280-296 | So every view of every phase is consistent, and the final state |
| `Schedule.PhaseGrows` | tools/re/match_rotwk.py:287-294 | A round that adds something continues a phase, one that adds nothing completes it |
| `Ledger.HighestLaneShows` | tools/re/match_rotwk.py:315-325 | After painting in sorted order a byte shows a row that covers it, of the highest lane rank of all that do |
| `Ledger.LastRowShows` | tools/re/match_rotwk.py:313-325 | Of all rows that cover a byte the one that shows is the last by lane, address, size, source and name, strings compared by their first difference |
| `Ledger.HighestLaneStarts` | tools/re/match_rotwk.py:315-326 | The start table holds a row that starts at the address, of the highest rank of those |
| `Ledger.LedgerShowsHighest` | tools/re/match_rotwk.py:308-326 | On every byte of a ledger painted from a file the highest lane of all rows that cover it shows, with a row's source; no source exactly where no row covers |
| `Ledger.Ledger.Paint` | tools/re/match_rotwk.py:317-326 | Painting one more row keeps lanes, sources and starts those of the painted list |
| `Ledger.Ledger.PaintAll` | tools/re/match_rotwk.py:308-326 | After the loop the arrays show every byte's last painter |
| `Ledger.Ledger.ReadStatus` | tools/re/match_rotwk.py:328-360 | Status, source and C++ share of an extent, as its lanes and the row at its start say |
| `Ledger.Ledger.MainSource` | tools/re/match_rotwk.py:347-348 | A source shown on the most bytes of the extent, or none when no byte shows one |
| `Ledger.StatusMeaning` | tools/re/match_rotwk.py:349-357 | None exactly for an uncovered extent; a whole lane exactly when 95 percent are covered; the lane is one of the extent |
| `Ledger.ReportedLane` | tools/re/match_rotwk.py:349-357 | The reported lane: with 95 percent C++ the C++ lane on the most bytes, the highest of equals; else the lane on the most bytes, the lowest of equals |
| `Ledger.MajorityLaneIsReported` | tools/re/match_rotwk.py:349-355 | A lane on 95 percent of the bytes is the one reported |
| `Ledger.ReportedLaneCoversIff` | tools/re/match_rotwk.py:329-355 | Without a row at the start, the lane reported for a whole extent covers 95 percent itself exactly when the extent is not reported whole or some lane does cover 95 percent |
| `Ledger.ReportedLaneMayBeAMinority` | tools/re/match_rotwk.py:308-355 | A ledger painted with two rows, no row at the extent's start, is reported as the whole lane that covers half of it, unlike the function's own description |
| `Structure.AdvanceBest` | tools/object_oracle/object_oracle.py:388-438 | One item takes a table of cheapest ways to every depth to the next such table |
| `Structure.FillTables` | tools/object_oracle/object_oracle.py:383-438 | The last table holds the cheapest way to every depth, and its links trace one |
| `Structure.ReadBack` | tools/object_oracle/object_oracle.py:441-449 | Following the links backwards gives the traced way |
| `Structure.ParseStructure` | tools/object_oracle/object_oracle.py:380-449 | The result is a legal depth path from 0 to 0 of least total cost within the depth cap; there is none exactly when no legal path exists |
| `Structure.ParseSteps` | tools/object_oracle/object_oracle.py:388-437 | Along a parse every item makes an allowed step to the depth of the next |
| `Structure.WayIff` | tools/object_oracle/object_oracle.py:388-437 | A way, line by line: an End closes a level, a line outside every block opens one, a column-0 header goes to depth 1, any other line opens one within depth 40 or stays |
| `Structure.CostIsParts` | tools/object_oracle/object_oracle.py:394-437 | The cost of a way: the chosen priors, 1.5 per line decided against the indentation, 0.5 per line before an End no further out, 12 per line that is no header outside every block, 40 per level closed by force |
| `Structure.CheapestIff` | tools/object_oracle/object_oracle.py:380-449 | A cheapest parse is a whole legal way of which the sum of these parts is least |
| `Structure.ScanBody` | tools/object_oracle/object_oracle.py:490-537 | The scan of a body never meets depth 0 before it ends, which it always does: at the End of depth 1 or at a forced header, never by running off the file |
| `Structure.CollectObjects` | tools/object_oracle/object_oracle.py:475-539 | The extents are those of all object headers, in order and disjoint; it fails exactly on a header without name or parent |
| `Structure.NoStartInside` | tools/object_oracle/object_oracle.py:494-505 | No object header starts inside another object's extent |
| `Includes.Expand` | tools/object_oracle/object_oracle.py:272-290 | Include expansion ends, since the stack holds distinct files, with the lines and problems of the recursive definition |
| `Includes.CircularIff` | tools/object_oracle/object_oracle.py:274-276 | A circular include is reported exactly when some path of includes from the file leads back to a file that it has passed |
| `IncludedLines.ExpansionLists` | tools/object_oracle/object_oracle.py:272-290 | The expansion is exactly the texts that the addresses through the includes lead to, in the order of the addresses |
| `IncludedLines.MissingIff` | tools/object_oracle/object_oracle.py:283-286 | An include is reported as not found exactly when it is unresolved and some path of includes reaches its file |
| `Templates.BuiltWellFormed` | tools/object_oracle/object_oracle.py:584-674 | After any list of definitions every template has unique tags across its four lists and at most one AI module per list |
| `Templates.BuiltNoOutdated` | tools/object_oracle/object_oracle.py:601-603 | A template that no ChildObject block defines holds no copied, non-inheritable module sharing an interface bit with one of its own |
| `Templates.ChildKeepsNoOutdatedIff` | tools/object_oracle/object_oracle.py:584-626 | A ChildObject declaration keeps a template free of such modules exactly when it is rejected, or every module that it outdates carries its tag or is cleared as the AI or slot-7 module of its list |
| `Templates.ChildKeepsOutdated` | tools/object_oracle/object_oracle.py:629-674 | An Object and a ChildObject block that build a template with such a module in it |
| `Templates.FirstNamesBuilt` | tools/object_oracle/object_oracle.py:629-644 | The names in the order of first definition are exactly those of the templates, each once |
| `Declarations.DeclarationSelects` | tools/object_oracle/object_oracle.py:584-626 | Every list keeps exactly the modules that stay, in their order, with the new module behind those of its list; a used tag rejects it after the clearing; an unknown class changes nothing |
| `Declarations.ProblemsAre` | tools/object_oracle/object_oracle.py:584-626 | When each of the six problems of a declaration is met |
| `Declarations.ReplacingIs` | tools/object_oracle/object_oracle.py:661-673 | The replacement under way is that of the last ReplaceModule, with the class of the last module that it removed |
| `Declarations.BlockMeets` | tools/object_oracle/object_oracle.py:652-673 | A block meets exactly the problems that its operations meet, each on the lists that the ones before it leave |
| `Declarations.DefineMeets` | tools/object_oracle/object_oracle.py:632-673 | A block with a missing original is reported and passed over; every other is opened and meets what its operations meet, ChildObject blocks by their own rules |
| `Declarations.BuildMeets` | tools/object_oracle/object_oracle.py:629-674 | The whole list meets what its blocks meet |
| `Declarations.RemovalSelects` | tools/object_oracle/object_oracle.py:656-673 | A removal keeps exactly the modules without the tag, in their order |
| `Declarations.EmptyBlock` | tools/object_oracle/object_oracle.py:632-651 | A block without operations leaves the marked modules of its original or of the default template, in order, and no other template changes |
| `Templates.DeclaredWellFormed` | tools/object_oracle/object_oracle.py:584-626 | One declaration keeps tags unique and AI modules single |
| `Templates.DeclaredIsListed` | tools/object_oracle/object_oracle.py:584-626 | A declaration without problems is listed last in its list, and its tag is used once |
| `Templates.Template.ApplyDecl` | tools/object_oracle/object_oracle.py:584-626 | The lists afterwards and the problems of one declaration |
| `Templates.Template.RemoveTag` | tools/object_oracle/object_oracle.py:656-673 | Exactly the modules with the tag are gone; a class is returned exactly when there was one |
| `Templates.Template.ApplyOps` | tools/object_oracle/object_oracle.py:652-673 | Lists and problems after all operations of a block, in order |
| `Templates.Define` | tools/object_oracle/object_oracle.py:632-673 | One block defines or extends its template and leaves the others alone, sharing no list with them; the problems it meets |
| `Templates.BuildTemplates` | tools/object_oracle/object_oracle.py:629-674 | The templates of a whole definition list in the order of their first definition, and all problems met |
| `MacroEval.Evaluator.RunScan` | tools/ini_macro_oracle.py:103-112 | Result and remaining deque of the splicing scan |
| `MacroEval.Evaluator.RunExpr` | tools/ini_macro_oracle.py:114-129 | Result and remaining deque of the operator loop |
| `MacroEval.Evaluator.RunMacro` | tools/ini_macro_oracle.py:131-134 | Result and remaining deque of a whole macro |
| `MacroEval.ScanFuel` | tools/ini_macro_oracle.py:103-129 | An evaluation that ends is the same with any larger recursion bound |
| `MacroEval.ExprComputes` | tools/ini_macro_oracle.py:114-129 | An operator consumes exactly its own tokens and gives the value of its substituted tree |
| `MacroEval.OperandIsItsTree` | tools/ini_macro_oracle.py:103-112 | Scanning a bracketed operand ends, leaves the rest of the deque unchanged and gives the value of the fully substituted tree, or fails where that fails |
| `MacroEval.MacroIsItsTree` | tools/ini_macro_oracle.py:131-134 | With acyclic well-bracketed macros the splicing evaluation of a macro ends with an empty deque and the value of its substituted tree |
| `MacroMeaning.TwoNumbers` | tools/ini_macro_oracle.py:103-129 | An operator before two number words and a bracket gives the helper's answer to the two numbers, and leaves what follows |
| `MacroMeaning.LowerIs` | tools/ini_macro_oracle.py:104 | Names are lowered letter by letter |
| `MacroMeaning.JoinNext` | tools/ini_macro_oracle.py:59 | A macro's number text is its words with single spaces between |
| `MacroMeaning.EvalIsMeaning` | tools/ini_macro_oracle.py:103-129 | The value of the substituted tree is the meaning of the tree, said of the numbers and the helper's answers to the operands alone |
| `MacroMeaning.MacroHasMeaning` | tools/ini_macro_oracle.py:131-134 | With enough recursion a macro is evaluated to v with an empty deque exactly when v is its meaning, and else fails |
| `Bezier.PowerForm` | tools/proj/bezier_model.py:46-71 | Weights on the control points are powers on the transformed points: the basis matrix is symmetric |
| `Bezier.EvaluateStart` | tools/proj/bezier_model.py:60-71 | The curve starts at its first control point |
| `Bezier.EvaluateEnd` | tools/proj/bezier_model.py:60-71 | The curve ends at its last control point |
| `Bezier.AfterSteps` | tools/proj/bezier_model.py:130-137 | One forward-difference step takes the closed form of step i to that of step i + 1 |
| `Bezier.SegmentPoints` | tools/proj/bezier_model.py:111-138 | The i-th point is the curve at i / (n - 1), the first the start and the last the target |
| `Bezier.OnCurveIsEvaluate` | tools/proj/bezier_model.py:60-71 | Being on the curve at t is being the evaluation at t |
| `Bezier.HalvesFollowCurve` | tools/proj/bezier_model.py:78-92 | The two halves of a split run over the curve with half the parameter each |
| `Bezier.PolygonShrinks` | tools/proj/bezier_model.py:95-107 | Halving never lengthens the control polygon |
| `Bezier.ChordsGrow` | tools/proj/bezier_model.py:95-107 | Halving never shortens the chords |
| `Bezier.BendQuarters` | tools/proj/bezier_model.py:105 | Halving divides the second differences by four |
| `Bezier.ExcessWithinBend` | tools/proj/bezier_model.py:100-104 | Polygon minus chord is at most twice the sum of the two second differences |
| `Bezier.HalvesAreLower` | tools/proj/bezier_model.py:104-107 | So the recursion ends for every curve and every positive tolerance |
| `Bezier.ApproxLengthBounds` | tools/proj/bezier_model.py:95-108 | The result lies between the chord and the control polygon |
| `Bezier.ApproxLengthError` | tools/proj/bezier_model.py:95-108 | The result is within half the tolerance per piece of any additive length between chord and polygon |
| `Rounding.ComputeRound24` | tools/horde_oracle/rng_reference.py:72-88 | The two loops find the rounding from their first estimate |
| `Rounding.RoundFrom` | tools/horde_oracle/rng_reference.py:79-88 | They find it from any estimate of the exponent |
| `Rounding.RoundIsFloat` | tools/horde_oracle/rng_reference.py:72-88 | The rounding has at most 24 significant bits |
| `Rounding.RoundNearest` | tools/horde_oracle/rng_reference.py:83-88 | No number of 24 bits is nearer |
| `Rounding.RoundHalfUlp` | tools/horde_oracle/rng_reference.py:83-88 | The rounding of any number is within half a unit of the last place; zero is exact |
| `Rounding.RoundTiesToEven` | tools/horde_oracle/rng_reference.py:86-87 | In a tie, on either side of zero, the significand is even |
| `Rounding.RoundIdempotent` | tools/horde_oracle/rng_reference.py:72-88 | Numbers of 24 bits stay as they are |
| `Rounding.RoundMonotone` | tools/horde_oracle/rng_reference.py:72-88 | Rounding keeps the order |
| `Rounding.RoundOdd` | tools/horde_oracle/rng_reference.py:76-88 | Rounding is odd |
| `Rounding.RoundScaled` | tools/horde_oracle/rng_reference.py:78-117 | Rounding commutes with every power of two, negative exponents included, for all reals |
| `Generators.LcgDraw` | tools/horde_oracle/rng_reference.py:33-39 | Seed array and drawn word after one draw |
| `Generators.LcgFirstReturn` | tools/horde_oracle/rng_reference.py:33-39 | From every seed the seed word first comes back after exactly 2^32 draws |
| `Generators.LcgAllDifferent` | tools/horde_oracle/rng_reference.py:33-39 | No seed word repeats within 2^32 draws |
| `Generators.LcgAllMet` | tools/horde_oracle/rng_reference.py:33-39 | Every word is the seed word at some point of 2^32 draws |
| `Period.FirstReturn` | tools/horde_oracle/rng_reference.py:33-39 | The same for every power of two, multiplier 1 mod 4 and odd increment |
| `Generators.LcgDrawsIff` | tools/horde_oracle/rng_reference.py:33-39 | A word is drawn from some seed exactly when a high word below the multiplier and the low word that goes with it make a multiple of the multiplier |
| `Generators.LcgMissesTwo` | tools/horde_oracle/rng_reference.py:33-39 | No seed draws the word 2 |
| `Generators.ChainKeepsCarries` | tools/horde_oracle/rng_reference.py:50-63 | From every seed each carry read off a sum of the chain is the true carry, though the reading alone would lose one in all-ones terms |
| `Generators.ChainIsOneSum` | tools/horde_oracle/rng_reference.py:50-63 | The five additions are one addition of 160 bits: the words plus their own sum moved down by a word, word 5 in the last place |
| `Generators.CountUpAddsOne` | tools/horde_oracle/rng_reference.py:64-69 | Counting up adds one to the number of 192 bits that the words are, word 0 counting most |
| `Generators.ZhDraw` | tools/horde_oracle/rng_reference.py:50-69 | Seed array after one carry-chain draw; the drawn word is its first |
| `Generators.ZhNextInjective` | tools/horde_oracle/rng_reference.py:50-69 | The carry-chain draw maps different seeds to different seeds |
| `Generators.ZhReturnsToStart` | tools/horde_oracle/rng_reference.py:50-69 | The first seed to repeat on a run is the one it started from |
| `Generators.IntValueRange` | tools/horde_oracle/rng_reference.py:95-101 | Whatever the word, the value lies in the interval exactly when there is one |
| `DrawnValues.ZhDrawsEvery` | tools/horde_oracle/rng_reference.py:50-69 | The carry chain draws every word, each from a named seed |
| `DrawnValues.IntValueReaches` | tools/horde_oracle/rng_reference.py:50-101 | With the carry chain every value of an interval of fewer than 2^32 integers is drawn, each from a named seed |
| `DrawnValues.LcgReachesIff` | tools/horde_oracle/rng_reference.py:33-101 | With the linear generator a value comes from some seed exactly when a word with such a high word gives it |
| `DrawnValues.LcgMissesAValue` | tools/horde_oracle/rng_reference.py:33-101 | With the linear generator no seed gives 2 between 0 and 2^32 - 2 |
| `DrawnValues.GetValue` | tools/horde_oracle/rng_reference.py:95-101 | Value, draw flag and seed for either generator; nothing is drawn exactly when hi - lo + 1 is a multiple of 2^32 |
| `DrawnValues.GetValueReal` | tools/horde_oracle/rng_reference.py:104-117 | The same for reals, with the rounding a parameter; nothing is drawn exactly when the rounded width is not positive |
| `DrawnValues.UnitIsOneRounding` | tools/horde_oracle/rng_reference.py:110-114 | Both sign branches divide the word by 2^32 and round once |
| `DrawnValues.RealValueIs` | tools/horde_oracle/rng_reference.py:106-117 | Every draw is the rounded sum of lo and the rounded product of the rounded width and the rounded fraction |
| `DrawnValues.RealValueWithin` | tools/horde_oracle/rng_reference.py:106-117 | Every draw lies between the roundings of lo and of lo + delta |
| `DrawnValues.Value24Within` | tools/horde_oracle/rng_reference.py:104-117 | With a 24-bit lo no draw is below lo or above the rounding of lo + delta |
| `DrawnValues.NeverBelowIff` | tools/horde_oracle/rng_reference.py:104-117 | With either generator no seed gives a value below lo exactly when lo is not rounded down, or nothing is drawn and hi is not below lo |
| `DrawnValues.Value24NeverAboveIff` | tools/horde_oracle/rng_reference.py:104-117 | With either generator no seed gives a value above hi exactly when nothing is drawn or the rounding of lo + delta is not above hi |
| `DrawnValues.UpperBoundExceeded` | tools/horde_oracle/rng_reference.py:104-117 | For lo = -1 and hi = 1 + 3 * 2^-23, both of 24 bits, a seed of either generator draws hi + 2^-23 |
| `Huffman.AssignCodes` | tools/audio/gen_mp3_tables.py:50-65 | It returns codes exactly when every length fits the share before it; then code i over 2^length i is the sum of the earlier 2^-length; otherwise it names the first length that does not fit |
| `Huffman.MaskIsRemainder` | tools/audio/gen_mp3_tables.py:61 | The mask test is divisibility by the power of two |
| `Huffman.AssignedArePrefixFree` | tools/audio/gen_mp3_tables.py:79-84 | Under the Kraft bound no assigned word is or starts another |
| `Huffman.SortedNeighbours` | tools/audio/gen_mp3_tables.py:82-84 | In sorted order neighbours that do not start one another mean that no word starts any other |
| `Huffman.SortedDecides` | tools/audio/gen_mp3_tables.py:82-84 | So the check of sorted neighbours decides prefix-freeness of the list as given |
| `Huffman.CheckWords` | tools/audio/gen_mp3_tables.py:82-84 | The neighbour loop answers whether the words are prefix-free |
| `Huffman.CheckTable` | tools/audio/gen_mp3_tables.py:79-84 | A table is accepted exactly when its lengths are at most 24, fit one after the other, and keep the Kraft bound: the prefix check then never fails |
| `GameCommands.CommandOk` | tools/net/replay_export.py:54-71 | True exactly for a fixed layout of the right size or the encoding of a game command, of any length |
| `GameCommands.CommandOkIsCommand` | tools/net/replay_export.py:54-71 | The byte checks accept exactly the encodings: count at most 2^20, typed arguments, booleans 0 or 1, no trailing byte |
| `RelayLog.ParseIs` | tools/net/replay_export.py:185-226 | A body is read as the records that it is the concatenation of, END last and only there, and as nothing else |
| `RelayLog.ReadHeaderIs` | tools/net/replay_export.py:159-176 | A header is read exactly when the bytes start with its encoding and it names the game |
| `RelayLog.ReadLogIs` | tools/net/replay_export.py:157-226 | Bytes are accepted as a log exactly when they are the encoding of that log of that game |
| `RelayLog.HeaderLayout` | tools/net/replay_export.py:159-182 | Where the fields of a header are, for the 25-byte header and the 26-byte one of version 4 |
| `RelayLog.RecordSizes` | tools/net/replay_export.py:184-222 | The size of every kind of record, END with counts for 8 or 16 slots |
| `RelayLog.SkipsAtFirstBad` | tools/net/replay_export.py:183-227 | A body is skipped for the reason of the first bytes that are no record, or for its missing END |
| `RelayLog.SkipsAfterEnd` | tools/net/replay_export.py:183-187 | A body with anything behind its END is skipped for that |
| `RelayLog.CleanBody` | tools/net/replay_export.py:183-227 | The record loop copies exactly the kept records and counts kept and refused commands, or gives the reader's reason to skip |
| `RelayLog.CleanLog` | tools/net/replay_export.py:157-227 | The export is the encoding of the log with its kept records, the pseudonym and the day; everything else is skipped |
| `RelayLog.AnonymisedIsLog` | tools/net/replay_export.py:178-227 | The exported log is again a well-formed log |
| `RelayLog.CleanTwice` | tools/net/replay_export.py:157-227 | Cleaning an export under its pseudonym gives the same bytes, as many kept commands and none dropped |
| `RelayLog.ExportHidesDropped` | tools/net/replay_export.py:196-220 | Under one pseudonym two logs of any two games are exported as the same bytes exactly when version, players, day and kept records agree |
| `Bytes.HexOfValue` | tools/net/replay_export.py:166-180 | Sixteen hexadecimal digits survive the way through the number in the header |
| `RelayLog.ExportSelects` | tools/net/replay_export.py:183-227 | Read back, an export holds exactly the records other than INPUT and other than COMMANDs that are none of the game, in their order |
| `LogReader.Records` | tools/net/netlag2_relaylog.py:18-47 | Everything that the second reader yields for any bytes, and whether it then raises |
| `LogReader.ExportIsReadBack` | tools/net/netlag2_relaylog.py:18-47 | It reads an export of version 1 or 2 as its header and its records one by one |
| `LogReader.CommandsComeBack` | tools/net/netlag2_relaylog.py:27-31 | The commands that it yields are exactly the kept commands, in order |
| `WatchedGame.SettledForGood` | tools/integrity/integrity_check.py:282-313 | A done, given-up or expired game stays so, and no later run fetches, checks or posts it |
| `WatchedGame.KnownForGood` | tools/integrity/integrity_check.py:306-342 | A game once listed is settled, pending, unsupported or waiting after every later run |
| `WatchedGame.FailuresAreBounded` | tools/integrity/integrity_check.py:345-384 | Attempts stay below 12, and every failure uses up one of at most 23 |
| `WatchedGame.EnoughFailuresSettle` | tools/integrity/integrity_check.py:345-354 | A new game that has failed on 23 runs is settled |
| `WatchedGame.FailureUsesUp` | tools/integrity/integrity_check.py:345-384 | One run: the stage and the attempts left fall with every failure and never rise |
| `WatchedGame.FailureIsCounted` | tools/integrity/integrity_check.py:345-354 | A failed run counts one attempt of the job that it worked on: below 12 the game stays pending in that stage, at 12 it is given up |
| `WatchedGame.NoFailureKeepsJob` | tools/integrity/integrity_check.py:359-385 | A run without a failure gives nothing up, and settles the game or leaves its job |
| `WatchedGame.DoneIff` | tools/integrity/integrity_check.py:374-381 | A game is done exactly by a run in which its delivery is due, after a good check or before, and does not fail |
| `WatchedGame.FetchDecides` | tools/integrity/integrity_check.py:313-341 | Which answers for log and sidecar make a run fail, wait or go on to the checker, and what the checker's answers make of it |
| `WatchedGame.TwelveFailuresGiveUp` | tools/integrity/integrity_check.py:345-354 | A new game of which no check ends well is given up by exactly the twelfth failure, and pending with as many attempts as failures before |
| `WatchedGame.CheckedOnce` | tools/integrity/integrity_check.py:374-381 | After a check that ended well no later run checks the game or fetches its log |
| `WatchedGame.PendingIsTried` | tools/integrity/integrity_check.py:306-381 | A run that asks the lobby settles, fetches or posts every pending game |
| `WatchedGame.UnsupportedExpires` | tools/integrity/integrity_check.py:284-288 | An unsupported game past the roster window expires |
| `WatchedGame.InputWaitEnds` | tools/integrity/integrity_check.py:329-337 | The wait for a sidecar ends with the grace period |
| `WatchLoop.Watch.Failed` | tools/integrity/integrity_check.py:345-354 | Only this game's entry changes: one attempt more, or given up at the twelfth |
| `WatchLoop.Watch.FetchAll` | tools/integrity/integrity_check.py:311-341 | The fetch loop steps exactly its games and sorts them into failed and due |
| `WatchLoop.Watch.WorkAll` | tools/integrity/integrity_check.py:359-385 | The work loop steps exactly the due games and counts the failures |
| `WatchLoop.Watch.WatchOnce` | tools/integrity/integrity_check.py:270-388 | Whatever the answers and the order, one run moves every game's entry by exactly its own step; the exit code tells whether any failed |
| `Ima.LastSample` | tools/audio/ima_statistics.py:32-48 | The last sample under either arithmetic, for every block that decodes; the other blocks raise |
| `Ima.SameTrajectory` | tools/audio/ima_statistics.py:35-47 | Both arithmetics follow the same step index from wherever the samples stand |
| `Ima.PredictorIsLittleEndian` | tools/audio/ima_statistics.py:33 | The header's sample is the little-endian number of its two bytes modulo 2^16 |
| `Ima.NibblesAt` | tools/audio/ima_statistics.py:35-36 | Every byte gives its low half, then its high half |
| `Ima.ProductIsFloor` | tools/audio/ima_statistics.py:38-39 | The product is a quarter of the step times a half more than the low three bits, cut off |
| `Ima.DecodeMoves` | tools/audio/ima_statistics.py:40-46 | Nibbles below 8 raise the sample by the magnitude, the others lower it, up to the clamp |
| `Ima.DecodeMirrors` | tools/audio/ima_statistics.py:35-47 | From the negated sample the nibble of the other sign leads to the negated sample where nothing is cut off |
| `Ima.MagnitudesDiffer` | tools/audio/ima_statistics.py:38-44 | For one nibble the product exceeds the series by 0 to 2 |
| `Ima.ClampIsTame` | tools/audio/ima_statistics.py:46 | Clamping brings no two samples further apart |
| `Ima.SamplesStayClose` | tools/audio/ima_statistics.py:35-48 | After any nibbles the two samples differ by at most 2 per nibble |
| `Ima.LastSamplesStayClose` | tools/audio/ima_statistics.py:32-48 | For every block with a start index of at most 88: same final index, samples within 4 per byte |
| `Ima.BoundIsAttained` | tools/audio/ima_statistics.py:35-48 | The bound is attained from the smallest step |
| `Polygon.PointInPolygon` | tools/path/path_oracle.py:215-242 | The loop computes the box test and the flag of all edges, with any rounding |
| `Polygon.CountsIsSymmetric` | tools/path/path_oracle.py:229-240 | An edge counts in whichever direction it is walked |
| `Polygon.FlagIsClosedWalk` | tools/path/path_oracle.py:224-242 | The flag is the parity of the counting edges of the closed walk |
| `Polygon.RotationKeepsInside` | tools/path/path_oracle.py:215-242 | Starting the vertex list elsewhere does not change the answer, with any rounding |
| `Polygon.ReversalKeepsInside` | tools/path/path_oracle.py:215-242 | Walking it backwards does not change the answer, with any rounding |
| `Polygon.CountsExactly` | tools/path/path_oracle.py:235-240 | In exact arithmetic an edge counts exactly when it spans the height of the point and meets it there at the point or to its right |
| `Polygon.BoxOnlySavesWork` | tools/path/path_oracle.py:220-223 | In exact arithmetic the box test never changes the answer |
| `PathGrid.CornerType` | tools/path/path_oracle.py:287-303 | The last corner deeper than a threshold decides, or none does and the cell stays |
| `PathGrid.CellByDepths` | tools/path/path_oracle.py:287-303 | The cell by the depths: as before when no corner exceeds a threshold, else water or deep water as the last corner that does says |
| `PathGrid.DeepestDecidesIff` | tools/path/path_oracle.py:287-303 | The code agrees with the deepest corner exactly when no corner is deep or the last deciding one is, for any corners, thresholds and earlier type |
| `PathGrid.DeepestNeedNotDecide` | tools/path/path_oracle.py:298-302 | A cell with deep water at one corner is shallow when a later corner is shallow |
| `PathGrid.TouchIsNeighbour` | tools/path/path_oracle.py:304-311 | A cell is touched from at most one column and one row apart |
| `PathGrid.Mark` | tools/path/path_oracle.py:304-311 | The first pass marks exactly the clear cells that touch a cliff cell |
| `PathGrid.Pinch` | tools/path/path_oracle.py:304-315 | Exactly the clear cells that touched a cliff cell beforehand become cliffs, with no cascade |

## Left out

- BinaryMatcher.Matcher.TierBRound: scores are exact reals where the code has floats; the log lines are not modelled.
- BinaryMatcher.Matcher.Run: features, shapes and hashes of the functions are given; disassembly is not part of this model.
- Structure.CollectObjects: the module operations recorded inside a body and the problem texts are not modelled, only the extents.
- Structure.ParseStructure: the opener probabilities learnt from indentation come in as the two costs of each item.
- Includes.Expand: the include pattern and path normalisation come in as resolved targets of the lines.
- MacroEval.Evaluator.RunMacro: a recursion bound stands for Python's own; macros that are cyclic or ill-bracketed are only modelled up to it. Number reading and the x87 operations are uninterpreted, and only ASCII digits and letters count as such.
- Bezier.SegmentPoints: exact reals; the rounding to float32 after every step is not modelled, nor are the flight-path set-up and the inverse square root.
- Bezier.ApproxLength: exact reals and any norm in place of the rounded Euclidean length.
- PathGrid.CornerType: ground heights and the covering surfaces come in as the depths at the corners; map planes and cliff bits are not modelled.
- Polygon.PointInPolygon: not-a-number coordinates are not modelled.
- WatchLoop.Watch.WatchOnce: the lists of given-up and expired games are sets, since nothing reads their order; a listing without duplicates and only the three caught kinds of exception are assumed. Fetching, checking and posting are arbitrary answers.
- Huffman.CheckTable: finding the tables in the library file, the symbol order and the written C++ text are not modelled.
- Reading of CSV, BIG, PNG and ICO files, subprocess, network and release plumbing, signing and key handling, linting and reports: outside this model.
