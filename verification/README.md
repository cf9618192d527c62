# Interpretable chess tactics: search loop, tester and chess encoding in Dafny

This project models the core of a system that learns chess tactics as logic
programs. It has two halves.

- The first half is the learner, a Popper-style hypothesis search:
  - a solver proposes candidate programs;
  - a tester evaluates each program against the examples and returns its four confusion counts;
  - the loop classifies those counts into a pair of outcomes;
  - the loop turns the result into constraints, grounds them and buffers them;
  - a full buffer is pushed back to the solver;
  - a program that yields no constraints is recorded as a valid tactic.
- The second half is the chess side:
  - it encodes a board as `contents/4`, `turn/1` and castling facts, and decodes such facts back into a board;
  - it reads positions out of games with per-game and per-file caps;
  - it builds the query text that asks whether a tactic matches a position;
  - it tallies per-tactic metrics from the evaluator's answers.

The modules follow the source files:

| module | file | models |
|---|---|---|
| `Wrappers` | wrappers.dfy | `Option` and `Result` |
| `Programs` | programs.dfy | terms, literals, clauses, constraints, substitution-based grounding |
| `Loop` | loop.dfy | popper/loop.py |
| `Tester` | tester.dfy | popper/tester.py |
| `ChessUtil` | chess_util.dfy | tactics/util.py |
| `Metrics` | metrics.dfy | tactics/metrics.py |

Some components are not modelled, and appear as parameters instead:
- the ASP solver;
- the binding finder;
- the candidate generator;
- the Prolog evaluator;
- the chess tester that the loop calls;
- the builder of specialisation constraints;
- the formatter of programs.

Each is a function parameter: a candidate stream `(size, knowledge) -> seq<Candidate>`, `test`, `specialise`, `findBindings`, `accepts`, `query`, `redundant`, `hash` and `format`. The `Tester` module models the generic tester of popper/tester.py. The loop does not call that tester: it calls `ChessTester.test` (popper/loop.py:11, 133), whose file is not part of this model, so `Loop.Oracles.test` stands for it.

The search itself has no time limit: the `timeout` wrapper in `learn_solution` (popper/loop.py:218) is commented out. `Loop.Popper` takes a session budget only so that the method terminates; the state it ends in is the one `Loop.Run` reaches after that many sessions.

## Model

| member | source | states |
|---|---|---|
| Loop.DecideOutcome | popper/loop.py:51-67 | positive side is All iff fn = 0 (whatever tp and fp), None iff tp = 0 and fn > 0, Some iff fn > 0 and tp > 0; negative side is None iff fp = 0 and is never All |
| Loop.TableDomainIsOutcomeRange | popper/loop.py:24-31 | the constraint table is defined on exactly the six pairs the classifier can return |
| Loop.TableKinds | popper/loop.py:24-31 | in the table, Specialisation appears iff the positive side is not All, Generalisation iff the negative side is Some, Redundancy iff the positive side is None, Banish only for (All, None) |
| Loop.BuildRules | popper/loop.py:73-84 | the active policy emits constraints only when tp + fp = 0, and then exactly the specialisation constraints of the program |
| Loop.BuildRulesIgnoresOutcome | popper/loop.py:73-84 | the rules built do not depend on the outcome pair; for tp + fp > 0 they are empty whatever the outcome |
| Loop.ActivePolicyAgainstTable | popper/loop.py:24-31 | when coverage is zero the table would also ask for a specialisation exactly when fn > 0; with fn = 0 it only banishes |
| Loop.ScoreIsCoverage | popper/loop.py:127-129 | the score tp + tn is at most the number of examples and reaches it exactly when the outcome is (All, None) |
| Loop.CalcScore | popper/loop.py:127-129 | the score is at most the number of examples and equals it exactly when there is no false negative and no false positive |
| Loop.GroundRules | popper/loop.py:33-49 | the loop's result is the set of groundings of every rule, meta literals dropped, once per binding; an empty rule set grounds to nothing; every grounded rule comes from some input rule and one of its bindings |
| Loop.GroundTemplate | popper/loop.py:43-45 | grounding one rule yields exactly one grounded rule per binding, collected as a set |
| Loop.GroundedBodiesAreDomainLiterals | popper/loop.py:40-45 | every literal in a grounded body is the grounding of a non-meta body literal of its rule |
| Loop.GroundAllUnion | popper/loop.py:33-49 | grounding distributes over union of rule sets, so grounding rule by rule and collecting into a set is order-independent |
| Loop.Process | popper/loop.py:155-180 | testing, classifying, building and grounding one candidate yields constraints only when the candidate covers no example (tp + fp = 0), and then exactly the grounding of its specialisation constraints |
| Programs.GroundingIgnoresRepeats | popper/loop.py:44-45 | a repeated body literal grounds to the same element, so duplicates collapse |
| Loop.CoveringCandidateIsAccepted | popper/loop.py:183-188 | a candidate with tp + fp > 0 appends nothing to the buffer and adds exactly its printed program to the valid tactics |
| Loop.BufferedOrAccepted | popper/loop.py:183-188 | each candidate either appends one non-empty grounded set to the buffer or adds its formatted program to the valid tactics, never both |
| Loop.AcceptedMembers | popper/loop.py:184-188 | a formatted program is a valid tactic iff some consumed candidate produced no constraints and formats to it |
| Loop.Consumed | popper/loop.py:152-188 | one solver session draws candidates until the one whose constraint set brings the buffer to BUFFER_LIMIT, or to the end of the stream; the buffer never passes the limit, stops short of it only when the stream is exhausted, and was below the limit before the last candidate drawn, so the draw stops right after the filling candidate |
| Loop.Drain | popper/loop.py:149-192 | draining the stream stops right after the candidate that brings the buffer to the limit (before it the buffer was below the limit), never exceeds it, consumes a prefix of the stream, and the buffer and valid tactics grow by exactly that prefix's contributions |
| Loop.Step | popper/loop.py:149-203 | a session draws a prefix of the stream and stops right after the filling candidate; if the buffer filled it is flushed into the knowledge base (exactly the buffered sets, BufferLimit of them) and the size is kept; otherwise the whole stream was drained, the size advances and the buffer is kept, not reset |
| Loop.StepAccounts | popper/loop.py:183-199 | after a session, the pushed and buffered constraint sets are exactly those of all candidates tested so far, in order, and the valid tactics are exactly the accepted ones |
| Loop.StepKeepsConsistent | popper/loop.py:137-203 | one session keeps the invariant: buffer below the limit, sessions recorded in order and at sizes of at most max_literals, every flushed or buffered set accounted for |
| Loop.Popper | popper/loop.py:131-207 | the driver visits sizes from 1 and completes exactly when the size passes max_literals; every session it opens runs at a size of at most max_literals, as the `for size in range(1, max_literals + 1)` loop allows; its final state is the one reached from the initial state by as many sessions as it ran, each a Step on the stream of the current size and knowledge base; a buffer below the limit at the end is left unflushed |
| Loop.Run | popper/loop.py:140-203 | n sessions from a state with a buffer below the limit keep the buffer below the limit and append exactly n session records to the earlier ones |
| Loop.SessionsIncrease | popper/loop.py:141-203 | the sizes of the sessions never decrease, and every size below the current one ended in a session that exhausted its stream |
| Tester.TestOutcome | popper/tester.py:87-108 | positive side is All iff TP = num_pos (whatever FN), None iff TP differs, TP = 0 and FN > 0, otherwise Some; negative side None iff FP = 0, never All |
| Tester.TestOutcomeAgreesOnFullTesting | popper/tester.py:87-95 | when tp + fn = num_pos the tester and the loop classify alike |
| Tester.TestOutcomeDiffersUnderMinimalTesting | popper/tester.py:87-95 | without full testing the classifiers part; num_pos = 0 with TP = 0 and a miss gives All |
| Tester.Retract | popper/tester.py:48-50 | a clause survives iff it was present and its head key is not retracted |
| Tester.AssertedPrefix | popper/tester.py:43-45 | the clauses asserted before the first rejection are all accepted and the next one is rejected |
| Tester.Using | popper/tester.py:39-50 | on the normal path and the exception path alike, no clause remains for any key of an asserted head; the block's value is seen only when every clause was asserted |
| Tester.Test | popper/tester.py:72-108 | a test succeeds iff every clause is asserted and the query answers; the counts are returned unchanged with their outcome; when every clause is asserted, the database afterwards is the old one minus every clause of the program's head keys |
| Tester.TestRemovesPreexistingClauses | popper/tester.py:39-50 | when every clause of the program is asserted, a clause that existed before the test and shares a head key with the program is gone afterwards |
| Tester.CheckRedundantLiteral | popper/tester.py:52-61 | the clauses queried are exactly the program's clauses whose hash is neither seen on entry nor that of an earlier clause, in program order; the seen set grows by exactly the program's hashes; the yielded clauses are the queried ones the oracle judges redundant |
| Tester.CheckClause | popper/tester.py:53-61 | a clause whose hash is already seen is skipped without a query; otherwise it is queried, its hash recorded, and the check invariant extends to the next index |
| Tester.SeenClausesAreSkipped | popper/tester.py:52-61 | the seen set only grows, a clause whose hash was seen is neither queried nor yielded, and each yielded clause was unseen at entry |
| ChessUtil.StrToSide | tactics/util.py:36-37 | a string names White iff it lower-cases to "white"; every other string is Black |
| ChessUtil.SideToStr | tactics/util.py:33-34 | the name of a side is "white" or "black" and reads back as that side |
| ChessUtil.SideRoundTrip | tactics/util.py:33-37 | decoding the name of a side gives the side back |
| ChessUtil.StrToSideIgnoresCase | tactics/util.py:36-37 | strings equal up to case name the same side |
| ChessUtil.ParsePiece | tactics/util.py:121-135 | a name parses to a piece type iff it lower-cases to that type's name; any other name has no result |
| ChessUtil.ParsePieceRoundTrip | tactics/util.py:121-135 | parsing a piece type's name gives the type back |
| ChessUtil.ContentsFromOrdered | tactics/util.py:44-52 | the contents facts list every occupied square exactly once, in ascending square order, with its colour and piece |
| ChessUtil.ContentsFrom | tactics/util.py:45-52 | only a length bound: at most one contents fact per remaining square (which facts, and in what order, is stated by ChessUtil.ContentsFromOrdered) |
| ChessUtil.BoardFactsLayout | tactics/util.py:44-66 | the facts are all contents facts, then exactly one turn fact, then the castling facts: one per set right, in the order white kingside, white queenside, black kingside, black queenside |
| ChessUtil.CastlingFactsRanked | tactics/util.py:58-64 | the castling facts list exactly the set rights, one fact each, in strictly increasing rank (white kingside, white queenside, black kingside, black queenside) |
| ChessUtil.BoardFacts | tactics/util.py:44-64 | only a length bound: a position has between 1 and 69 facts (their order and contents are stated by ChessUtil.BoardFactsLayout) |
| ChessUtil.FenToContents | tactics/util.py:39-66 | the text is a list in square brackets |
| ChessUtil.FenToContentsLayout | tactics/util.py:39-66 | between the brackets the text of each fact of the position appears in order at its offset, every one but the last followed by ", ", and the last closes the list |
| ChessUtil.JoinPlaces | tactics/util.py:66 | in a text joined with a separator the i-th part sits at the sum of the earlier parts' and separators' lengths, a separator follows every part but the last, and the last part ends the text |
| ChessUtil.NatToStringRoundTrip | tactics/util.py:50-52 | reading back the decimal text of a natural number gives the number; the text has no leading zero |
| ChessUtil.IntToStringRoundTrip | tactics/util.py:203-204 | reading back the text of an integer, with its minus sign, gives the integer |
| ChessUtil.ConvertInvertsEncoding | tactics/util.py:137-166 | decoding the facts of a board gives the board back: every piece to its square, the side to move and all four castling flags |
| ChessUtil.ApplyFactFrame | tactics/util.py:141-165 | a contents fact changes only the one square it names; turn sets only the side to move; a castling fact sets only its own corner flag for the named side; an unknown predicate with a side argument leaves the board unchanged |
| ChessUtil.ApplyFact | tactics/util.py:141-165 | one fact decodes exactly when its first argument is an atom and, for a contents fact, it names a known piece and an integer square of the table; an unknown predicate with a side argument leaves the board unchanged |
| ChessUtil.ApplyAll | tactics/util.py:140-166 | applying the facts in order succeeds exactly when every fact decodes |
| ChessUtil.ConvertPosToBoard | tactics/util.py:137-166 | building a board from the empty one fails exactly when some fact does not decode |
| ChessUtil.CoordinatesAreNotRangeChecked | tactics/util.py:147-151 | a file of 9 on rank 1 lands on a2, and file 0 on rank 1 wraps around to h8 |
| ChessUtil.PositionsPgn | tactics/util.py:68-84 | the loop reads exactly min(games, max(num_games, 1)) games when num_games is non-zero, and yields each game's capped window of inner positions |
| ChessUtil.GameWindow | tactics/util.py:73-81 | each yielded position is a later mainline position, never the start or the last one, and a non-zero cap allows at most max(cap, 1) of them |
| ChessUtil.GamePositions | tactics/util.py:73-81 | the inner loop yields the game's window: the positions after the start, up to but excluding the end node, cut at the per-game cap |
| ChessUtil.WindowsAreInnerPositions | tactics/util.py:68-84 | every position read comes from a game that was read, never from its start node or its end node |
| ChessUtil.WindowsCapped | tactics/util.py:79-80 | with a non-zero per-game cap at most max(cap, 1) positions are read per game |
| ChessUtil.ParseSquare | tactics/metrics.py:44-45 | a name parses to a square iff it is that square's name |
| ChessUtil.SquareNameRoundTrip | tactics/metrics.py:44-45 | parsing a square's name, as printed by the query at tactics/util.py:197-198, gives the square back |
| ChessUtil.QueryGoal | tactics/util.py:196-201 | the goal is "f(" and the position, followed by ", ", the from-square name, ", ", the to-square name and ")" for a truthy move, and by ", From, To)" otherwise |
| ChessUtil.QueryGoalNamesMove | tactics/util.py:196-199 | the from- and to-squares of a truthy move parse back from their places in the goal |
| ChessUtil.QueryText | tactics/util.py:196-204 | without a truthy time limit the query is the bare goal; with one it is "call_with_time_limit(", the limit's decimal text, ", ", the goal and ")"; the text starts with "f(" exactly when no truthy time limit is given |
| ChessUtil.ChessQuery | tactics/util.py:189-204 | the query on a board is the goal on the board's fact list, wrapped as call_with_time_limit(limit, goal) exactly when the time limit is given and non-zero |
| Metrics.SuggestionsToMoves | tactics/metrics.py:43-47 | the answers decode iff each does, and then to one move per answer, in order |
| Metrics.TakeAnswers | tactics/metrics.py:35 | at most the limit of answers are kept, a prefix of them |
| Metrics.GetTacticMatch | tactics/metrics.py:32-49 | no result exactly when the query raised; no answers is no match; otherwise a match with one unpromoted move per kept answer, in order; it raises exactly when some kept answer does not decode |
| Metrics.MovesRoundTrip | tactics/metrics.py:40-47 | answers that name moves give those moves back, capped at the limit |
| Metrics.PromotionNeverSuggested | tactics/metrics.py:43-47 | a suggestion never carries a promotion, so a promoting played move is never a suggested one |
| Metrics.CalcMetrics | tactics/metrics.py:74-125 | the counters equal the independent counts over the positions; a bad answer raises |
| Metrics.TallyAdvances | tactics/metrics.py:96-121 | tallying a position takes the counters of the positions before it to the counters of the positions up to and including it |
| Metrics.Tally | tactics/metrics.py:96-121 | a position leaves the counters unchanged exactly when its query raised; it adds a match exactly when the tactic matched, an empty suggestion exactly when it did not, and a correct move exactly when the played move is among the suggestions |
| Metrics.CountersAreConsistent | tactics/metrics.py:100-121 | matches + empty suggestions = positions; correct moves ≤ matches; matches ≤ suggestions ≤ 3 × matches |
| Metrics.FailedQueriesAreSkipped | tactics/metrics.py:96-97 | a position whose query raised changes no counter |

## Left out

- The ASP solver, the binding finder, `Grounding.ground_clause` and `generate_program` live in files that are not part of this model. They are parameters; grounding is modelled as variable substitution whose body is a set.
- The Prolog evaluator is an oracle. This covers consulting files, `first_result`, the `do_test` queries, the `redundant_*` queries, asserting legal moves, and asserting and retracting the tactic inside `chess_query`.
- The chess engine and the floating-point metrics are left out, because they are external calls and floating point. This covers `get_evals`, `get_top_n_moves`, `evaluate`, divergence, average and the engine-score sums.
- File, CSV, CLI, logging and progress-bar code is left out, because it is I/O only. This covers `write_metrics`, `print_metrics`, `parse_args`, `main`, `chess_examples`, `positions_list` and `write_valid_programs`.
- The commented-out constraint dispatch and the best-program bookkeeping of the loop are not modelled, because they are inactive code. The constraint table is modelled as data, and `calc_score`'s value is never used by the driver.
- `check_redundant_clause` is not modelled, because it is a single query to the evaluator.
- Some call sites in tactics/metrics.py do not match the signatures of the functions they call. `chess_query` is called with `use_foreign_predicate`, `get_evals` with `mate_score`, `get_prolog` with arguments, and the `LC0`/`MAIA_*` names are undefined. Each function is modelled as written, and these call sites are not.
- Loop.Popper: the `while True` loop at popper/loop.py:149-203 leaves a size only when a session ends with fewer than BUFFER_LIMIT buffered sets. Whether that happens depends on the solver, which is a parameter here. The `budget` of sessions exists only so that the method terminates, and the model proves nothing about sessions beyond it.
- Loop.Process: the `test` oracle stands for `ChessTester.test` (popper/loop.py:133, 159), whose file is not part of this model. The model assumes that it returns four counts for every program. If it raises instead, as the generic `Tester.test` does by re-raising a Prolog error (popper/tester.py:81-85), the whole search aborts, and no run of the model is cut short that way.
- Loop.Oracles: `specialise` stands for `Constrain.specialisation_constraint` (popper/constrain.py), whose file is not part of this model. The model promises nothing about the constraints it builds beyond their grounding.
- Loop.Drain: the solver's model iterator is an abstract finite sequence per (size, knowledge base). The model does not claim that the solver never repeats a program.
- ChessUtil.Lower: only the ASCII letters A-Z are lower-cased. Python's `str.lower` also maps non-ASCII letters, and the model does not.
- ChessUtil.ParsePiece: Python's `str.lower` maps KELVIN SIGN to "k", so `parse_piece` also accepts names such as "\u212Aing", which the model rejects.
- ChessUtil.Board: the board is abstract. FEN parsing, legal-move generation and python-chess's castling validity check (`has_*_castling_rights` also requires king and rook on their home squares) are not modelled. The castling flags stand for the four corner bits.
- ChessUtil.ApplyFact: the error texts name the Python exception that would be raised, and are not checked. A fact whose name is not a string, or whose arguments are neither atoms nor integers, is outside the model.
- ChessUtil.PositionsPgn: each game is its list of mainline positions, and variations are ignored. The generator is modelled as run to the end. In Python a consumer can stop it earlier.
- Metrics.CalcMetrics: only the integer counters are modelled. The input is the sequence of (played move, evaluator answers) per position, and the evaluator's `maxresult` is modelled as keeping the first `limit` answers.
- Tester.CheckRedundantLiteral: the generator is modelled as run to the end, and the clause hash is an oracle.
