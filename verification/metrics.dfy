/** Scoring a tactic over a sequence of positions: the evaluator's answers
    become a match verdict with suggested moves, and the counters are tallied
    position by position. Engine evaluations (the floating-point divergence
    and average) are not part of this module. */
module Metrics {
  import opened Wrappers
  import opened ChessUtil

  /** At most this many answers are asked of the evaluator per position. */
  const SuggestionsPerTactic: nat := 3

  /** One answer of the evaluator: variable name to the text bound to it. */
  type Solution = map<string, string>

  /** The verdict on one position: the evaluator raised or timed out, the
      tactic did not match, or it matched and suggested these moves. */
  datatype TacticMatch = NoResult | NoMatch | Matched(suggestions: seq<Move>)

  /** The move named by an answer's From and To squares, without promotion;
      a missing variable or an unknown square name raises. */
  function SuggestionToMove(s: Solution): Result<Move>
  {
    if "From" !in s || "To" !in s then Failure("KeyError: answer lacks From or To")
    else match (ParseSquare(s["From"]), ParseSquare(s["To"]))
      case (Some(from), Some(to)) => Success(Move(from, to, None))
      case _ => Failure("ValueError: not a square name")
  }

  /** The moves of the answers, in order; the first bad answer raises. */
  function SuggestionsToMoves(answers: seq<Solution>): (r: Result<seq<Move>>)
    ensures r.Success? <==> forall i :: 0 <= i < |answers| ==> SuggestionToMove(answers[i]).Success?
    ensures r.Success? ==> |r.value| == |answers|
    ensures r.Success? ==> forall i :: 0 <= i < |answers| ==> SuggestionToMove(answers[i]) == Success(r.value[i])
  {
    if answers == [] then Success([])
    else
      var first :- SuggestionToMove(answers[0]);
      var rest :- SuggestionsToMoves(answers[1..]);
      assert forall i :: 1 <= i < |answers| ==> answers[i] == answers[1..][i - 1];
      Success([first] + rest)
  }

  /** The first `limit` answers, as the evaluator hands them out. */
  function TakeAnswers(answers: seq<Solution>, limit: nat): (r: seq<Solution>)
    ensures |r| <= limit && |r| <= |answers| && r == answers[..|r|]
    ensures |r| == |answers| || |r| == limit
  {
    if |answers| <= limit then answers else answers[..limit]
  }

  /** The verdict on a position from the evaluator's answers (None when the
      query raised): no answers is no match; otherwise a match with one
      suggested move per answer kept, in order. */
  function GetTacticMatch(answers: Option<seq<Solution>>, limit: nat): (r: Result<TacticMatch>)
    ensures r == Success(NoResult) <==> answers.None?
    ensures answers.Some? ==>
      (r == Success(NoMatch) <==> |TakeAnswers(answers.value, limit)| == 0)
    ensures r.Success? && r.value.Matched? ==>
      && answers.Some?
      && 0 < |r.value.suggestions| <= limit
      && |r.value.suggestions| == |TakeAnswers(answers.value, limit)|
      && forall i :: 0 <= i < |r.value.suggestions| ==>
           SuggestionToMove(answers.value[i]) == Success(r.value.suggestions[i])
           && r.value.suggestions[i].promotion == None
    ensures r.Failure? ==> answers.Some?
    ensures r.Failure? && answers.Some? ==>
      exists i :: 0 <= i < |TakeAnswers(answers.value, limit)| && SuggestionToMove(answers.value[i]).Failure?
    ensures answers.Some? && (forall i :: 0 <= i < |TakeAnswers(answers.value, limit)| ==> SuggestionToMove(answers.value[i]).Success?) ==>
      r.Success?
  {
    match answers
    case None => Success(NoResult)
    case Some(all) =>
      var results := TakeAnswers(all, limit);
      if results == [] then Success(NoMatch)
      else
        var moves :- SuggestionsToMoves(results);
        Success(Matched(moves))
  }

  /** The answer naming a move's squares. */
  function MoveAnswer(m: Move): Solution
  {
    map["From" := SquareName(m.from), "To" := SquareName(m.to)]
  }

  /** Answers that name moves give those moves back (without promotion),
      capped at the limit. */
  lemma MovesRoundTrip(moves: seq<Move>, limit: nat)
    requires forall i :: 0 <= i < |moves| ==> moves[i].promotion == None
    requires 0 < |moves| && 0 < limit
    ensures var kept := if |moves| <= limit then |moves| else limit;
      GetTacticMatch(Some(seq(|moves|, i requires 0 <= i < |moves| => MoveAnswer(moves[i]))), limit)
        == Success(Matched(moves[..kept]))
  {
    var answers := seq(|moves|, i requires 0 <= i < |moves| => MoveAnswer(moves[i]));
    forall i | 0 <= i < |moves|
      ensures SuggestionToMove(answers[i]) == Success(moves[i])
    {
      SquareNameRoundTrip(moves[i].from);
      SquareNameRoundTrip(moves[i].to);
    }
    var kept := if |moves| <= limit then |moves| else limit;
    var r := GetTacticMatch(Some(answers), limit);
    assert TakeAnswers(answers, limit) == answers[..kept];
    assert r.Success? && r.value.Matched?;
    assert r.value.suggestions == moves[..kept];
  }

  /** A played move with a promotion is never among the suggestions, which
      are all built without one. */
  lemma PromotionNeverSuggested(answers: Option<seq<Solution>>, limit: nat, played: Move)
    requires played.promotion.Some?
    requires GetTacticMatch(answers, limit).Success? && GetTacticMatch(answers, limit).value.Matched?
    ensures played !in GetTacticMatch(answers, limit).value.suggestions
  {
  }

  // ---------------------------------------------------------------------
  // Counters

  /** The integer metrics of a tactic. */
  datatype Counters = Counters(totalPositions: nat, totalMatches: nat, emptySuggestions: nat,
                               numSuggestions: nat, correctMove: nat)

  /** A position: the move played there and the evaluator's answers to the
      tactic's query on it. */
  datatype Position = Position(played: Move, answers: Option<seq<Solution>>)

  /** The kinds of positions counted. */
  datatype Kind = Evaluated | Match | Empty | Correct

  predicate CountsAs(t: Kind, played: Move, m: TacticMatch)
  {
    match t
    case Evaluated => !m.NoResult?
    case Match => m.Matched?
    case Empty => m.NoMatch?
    case Correct => m.Matched? && played in m.suggestions
  }

  /** The position's answers decode. */
  predicate Decodes(p: Position)
  {
    GetTacticMatch(p.answers, SuggestionsPerTactic).Success?
  }

  /** Every position's answers decode. */
  predicate AllDecode(ps: seq<Position>)
  {
    forall i :: 0 <= i < |ps| ==> Decodes(ps[i])
  }

  function MatchOf(p: Position): TacticMatch
    requires Decodes(p)
  {
    GetTacticMatch(p.answers, SuggestionsPerTactic).value
  }

  /** How many positions count as t. */
  function Count(ps: seq<Position>, t: Kind): nat
    requires AllDecode(ps)
  {
    if ps == [] then 0
    else
      var last := ps[|ps| - 1];
      Count(ps[..|ps| - 1], t) + (if CountsAs(t, last.played, MatchOf(last)) then 1 else 0)
  }

  /** The total number of suggested moves over all positions. */
  function SuggestionTotal(ps: seq<Position>): nat
    requires AllDecode(ps)
  {
    if ps == [] then 0
    else
      var m := MatchOf(ps[|ps| - 1]);
      SuggestionTotal(ps[..|ps| - 1]) + (if m.Matched? then |m.suggestions| else 0)
  }

  /** The counters a sequence of positions should produce. */
  function Expected(ps: seq<Position>): Counters
    requires AllDecode(ps)
  {
    Counters(Count(ps, Evaluated), Count(ps, Match), Count(ps, Empty), SuggestionTotal(ps), Count(ps, Correct))
  }

  /** The first i + 1 positions are the first i and then position i. */
  lemma PrefixStep(ps: seq<Position>, i: nat)
    requires i < |ps|
    ensures ps[..i + 1][..i] == ps[..i]
    ensures ps[..i + 1][i] == ps[i]
  {
  }

  lemma CountStep(ps: seq<Position>, i: nat, t: Kind)
    requires i < |ps| && AllDecode(ps[..i]) && Decodes(ps[i])
    ensures AllDecode(ps[..i + 1])
    ensures Count(ps[..i + 1], t) == Count(ps[..i], t) + (if CountsAs(t, ps[i].played, MatchOf(ps[i])) then 1 else 0)
  {
    PrefixStep(ps, i);
  }

  lemma SuggestionTotalStep(ps: seq<Position>, i: nat)
    requires i < |ps| && AllDecode(ps[..i]) && Decodes(ps[i])
    ensures AllDecode(ps[..i + 1])
    ensures SuggestionTotal(ps[..i + 1]) == SuggestionTotal(ps[..i])
              + (if MatchOf(ps[i]).Matched? then |MatchOf(ps[i]).suggestions| else 0)
  {
    PrefixStep(ps, i);
  }

  /** Adding a position whose verdict is m adds its own share to each count. */
  lemma ExpectedStep(ps: seq<Position>, i: nat, m: TacticMatch)
    requires i < |ps| && AllDecode(ps[..i])
    requires GetTacticMatch(ps[i].answers, SuggestionsPerTactic) == Success(m)
    ensures AllDecode(ps[..i + 1])
    ensures Count(ps[..i + 1], Evaluated) == Count(ps[..i], Evaluated) + (if m.NoResult? then 0 else 1)
    ensures Count(ps[..i + 1], Match) == Count(ps[..i], Match) + (if m.Matched? then 1 else 0)
    ensures Count(ps[..i + 1], Empty) == Count(ps[..i], Empty) + (if m.NoMatch? then 1 else 0)
    ensures Count(ps[..i + 1], Correct) == Count(ps[..i], Correct)
              + (if m.Matched? && ps[i].played in m.suggestions then 1 else 0)
    ensures SuggestionTotal(ps[..i + 1]) == SuggestionTotal(ps[..i]) + (if m.Matched? then |m.suggestions| else 0)
  {
    assert MatchOf(ps[i]) == m;
    CountStep(ps, i, Evaluated);
    CountStep(ps, i, Match);
    CountStep(ps, i, Empty);
    CountStep(ps, i, Correct);
    SuggestionTotalStep(ps, i);
  }

  /** The counters after one position: a position whose query raised is
      skipped altogether; any other counts as a position, and then as a
      match (with its suggestions and whether the played move is among them)
      or as an empty suggestion. */
  function Tally(m: Counters, played: Move, verdict: TacticMatch): (r: Counters)
    ensures r == m <==> verdict.NoResult?
    ensures r.totalMatches == m.totalMatches + 1 <==> verdict.Matched?
    ensures r.emptySuggestions == m.emptySuggestions + 1 <==> verdict.NoMatch?
    ensures r.correctMove == m.correctMove + 1 <==> verdict.Matched? && played in verdict.suggestions
  {
    match verdict
    case NoResult => m
    case NoMatch =>
      m.(totalPositions := m.totalPositions + 1, emptySuggestions := m.emptySuggestions + 1)
    case Matched(suggestions) =>
      var counted := m.(totalPositions := m.totalPositions + 1, totalMatches := m.totalMatches + 1);
      if suggestions == [] then counted
      else
        counted.(correctMove := counted.correctMove + (if played in suggestions then 1 else 0),
                 numSuggestions := counted.numSuggestions + |suggestions|)
  }

  /** Tallying the next position moves the counters from the counts of the
      positions before it to the counts including it. */
  lemma TallyAdvances(ps: seq<Position>, i: nat, m: Counters, verdict: TacticMatch)
    requires i < |ps| && AllDecode(ps[..i]) && m == Expected(ps[..i])
    requires GetTacticMatch(ps[i].answers, SuggestionsPerTactic) == Success(verdict)
    ensures AllDecode(ps[..i + 1])
    ensures Tally(m, ps[i].played, verdict) == Expected(ps[..i + 1])
  {
    ExpectedStep(ps, i, verdict);
  }

  /** Tallies the positions one by one; an answer that does not decode
      raises. */
  method CalcMetrics(positions: seq<Position>) returns (r: Result<Counters>)
    ensures r.Success? <==> AllDecode(positions)
    ensures r.Success? ==> r.value == Expected(positions)
  {
    var m := Counters(0, 0, 0, 0, 0);
    var i := 0;
    while i < |positions|
      invariant 0 <= i <= |positions|
      invariant AllDecode(positions[..i])
      invariant m == Expected(positions[..i])
    {
      var p := positions[i];
      var verdict := GetTacticMatch(p.answers, SuggestionsPerTactic);
      if verdict.Failure? {
        return Failure(verdict.error);
      }
      TallyAdvances(positions, i, m, verdict.value);
      m := Tally(m, p.played, verdict.value);
      i := i + 1;
    }
    assert positions[..i] == positions;
    r := Success(m);
  }

  /** Every counted position is either a match or an empty suggestion, a
      correct move needs a match, and each match contributes between one and
      SuggestionsPerTactic suggestions. */
  lemma {:induction false} CountersAreConsistent(ps: seq<Position>)
    requires AllDecode(ps)
    ensures Count(ps, Match) + Count(ps, Empty) == Count(ps, Evaluated)
    ensures Count(ps, Correct) <= Count(ps, Match)
    ensures Count(ps, Match) <= SuggestionTotal(ps) <= SuggestionsPerTactic * Count(ps, Match)
    ensures Count(ps, Evaluated) <= |ps|
  {
    if ps != [] {
      var init := ps[..|ps| - 1];
      assert AllDecode(init) by {
        forall i | 0 <= i < |init| ensures Decodes(init[i]) {
          assert init[i] == ps[i];
        }
      }
      CountersAreConsistent(init);
    }
  }

  /** A position whose query raised changes no counter. */
  lemma {:induction false} FailedQueriesAreSkipped(ps: seq<Position>, played: Move)
    requires AllDecode(ps)
    ensures AllDecode(ps + [Position(played, None)])
    ensures Expected(ps + [Position(played, None)]) == Expected(ps)
  {
    var qs := ps + [Position(played, None)];
    assert qs[..|qs| - 1] == ps;
  }
}
