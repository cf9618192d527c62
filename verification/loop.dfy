/** The hypothesis-search loop: outcome classification of a confusion
    matrix, the outcome-to-constraint table, the active pruning policy,
    constraint grounding, and the size-bounded driver that buffers
    constraints and restarts the solver session after each flush. */
module Loop {
  import W = Wrappers
  import opened Programs

  datatype Outcome = All | Some | None

  datatype Con = Generalisation | Specialisation | Redundancy | Banish

  /** Counts of one candidate program against the examples. */
  datatype ConfusionMatrix = ConfusionMatrix(tp: nat, fn: nat, tn: nat, fp: nat)

  /** (positive outcome, negative outcome) */
  type OutcomePair = (Outcome, Outcome)

  /** The static outcome-to-constraint table. It is data only: the active
      policy in BuildRules does not consult it. */
  const OutcomeToConstraints: map<OutcomePair, seq<Con>> := map[
    (All, None) := [Banish],
    (All, Some) := [Generalisation],
    (Some, None) := [Specialisation],
    (Some, Some) := [Specialisation, Generalisation],
    (None, None) := [Specialisation, Redundancy],
    (None, Some) := [Specialisation, Redundancy, Generalisation]
  ]

  /** Classifies a confusion matrix. Completeness is judged by the false
      negatives alone, so a program with no false negatives is All even when
      it covers no positive example; the negative side is never All. */
  function DecideOutcome(cm: ConfusionMatrix): (r: OutcomePair)
    ensures r.0 == All <==> cm.fn == 0
    ensures r.0 == None <==> cm.tp == 0 && cm.fn > 0
    ensures r.0 == Some <==> cm.fn > 0 && cm.tp > 0
    ensures r.1 == None <==> cm.fp == 0
    ensures r.1 != All
  {
    var positive := if cm.fn == 0 then All else if cm.tp == 0 && cm.fn > 0 then None else Some;
    var negative := if cm.fp == 0 then None else Some;
    (positive, negative)
  }

  /** The table is defined on exactly the pairs DecideOutcome can return. */
  lemma TableDomainIsOutcomeRange()
    ensures forall cm :: DecideOutcome(cm) in OutcomeToConstraints
    ensures forall k :: k in OutcomeToConstraints ==> exists cm :: DecideOutcome(cm) == k
  {
    assert DecideOutcome(ConfusionMatrix(0, 0, 0, 0)) == (All, None);
    assert DecideOutcome(ConfusionMatrix(0, 0, 0, 1)) == (All, Some);
    assert DecideOutcome(ConfusionMatrix(1, 1, 0, 0)) == (Some, None);
    assert DecideOutcome(ConfusionMatrix(1, 1, 0, 1)) == (Some, Some);
    assert DecideOutcome(ConfusionMatrix(0, 1, 0, 0)) == (None, None);
    assert DecideOutcome(ConfusionMatrix(0, 1, 0, 1)) == (None, Some);
  }

  /** Which constraint kinds each table entry lists. */
  lemma TableKinds()
    ensures forall k :: k in OutcomeToConstraints ==>
      && (Specialisation in OutcomeToConstraints[k] <==> k.0 != All)
      && (Generalisation in OutcomeToConstraints[k] <==> k.1 == Some)
      && (Redundancy in OutcomeToConstraints[k] <==> k.0 == None)
      && (Banish in OutcomeToConstraints[k] <==> k == (All, None))
  {
  }

  /** Generation metadata travels with each program; the model only passes
      it on to the constraint builder. */
  datatype Candidate = Candidate(program: Program, before: set<Clause>, minClause: nat)

  /** The active pruning policy: a candidate that covers no example at all
      gets the specialisation constraints; every other candidate gets none.
      The outcome pair does not influence the result. */
  function BuildRules(specialise: Candidate -> set<Constraint>, cand: Candidate,
                      outcome: OutcomePair, cm: ConfusionMatrix): (r: set<Constraint>)
    ensures r != {} ==> cm.tp + cm.fp == 0
    ensures cm.tp + cm.fp == 0 ==> r == specialise(cand)
  {
    // A negative outcome of All would be folded into Some here; it only
    // matters for the dormant table dispatch.
    if cm.tp + cm.fp == 0 then specialise(cand) else {}
  }

  lemma BuildRulesIgnoresOutcome(specialise: Candidate -> set<Constraint>, cand: Candidate,
                                 o1: OutcomePair, o2: OutcomePair, cm: ConfusionMatrix)
    ensures BuildRules(specialise, cand, o1, cm) == BuildRules(specialise, cand, o2, cm)
    ensures cm.tp + cm.fp > 0 ==> BuildRules(specialise, cand, o1, cm) == {}
  {
  }

  /** Where the active policy fires, the table agrees that specialisation is
      due exactly when some positive example is missed; for a program with no
      positive examples to miss the table would banish instead. */
  lemma ActivePolicyAgainstTable(cm: ConfusionMatrix)
    requires cm.tp + cm.fp == 0
    ensures DecideOutcome(cm) in OutcomeToConstraints
    ensures Specialisation in OutcomeToConstraints[DecideOutcome(cm)] <==> cm.fn > 0
    ensures cm.fn == 0 ==> OutcomeToConstraints[DecideOutcome(cm)] == [Banish]
  {
    TableKinds();
  }

  /** The number of examples the program classifies correctly: at most the
      number of examples, and all of them exactly when there is no false
      negative and no false positive. */
  function CalcScore(cm: ConfusionMatrix): (r: nat)
    ensures r <= cm.tp + cm.fn + cm.tn + cm.fp
    ensures r == cm.tp + cm.fn + cm.tn + cm.fp <==> cm.fn == 0 && cm.fp == 0
  {
    cm.tp + cm.tn
  }

  /** Against an example set of numPos positives and numNeg negatives the
      score is at most numPos + numNeg, and it is maximal exactly when the
      program is classified (All, None). */
  lemma ScoreIsCoverage(cm: ConfusionMatrix, numPos: nat, numNeg: nat)
    requires cm.tp + cm.fn == numPos && cm.tn + cm.fp == numNeg
    ensures CalcScore(cm) <= numPos + numNeg
    ensures CalcScore(cm) == numPos + numNeg <==> DecideOutcome(cm) == (All, None)
  {
  }

  /** The set of grounded constraints for a set of templates: one per
      template and binding, with meta literals removed before grounding. */
  function GroundAll(rules: set<Constraint>, findBindings: (Constraint, nat, nat) -> set<Binding>,
                     maxClauses: nat, maxVars: nat): set<GroundRule>
  {
    set c, b | c in rules && b in findBindings(c, maxClauses, maxVars) :: GroundConstraint(StripMeta(c), b)
  }

  /** Grounds each template once per binding into a deduplicated set. The
      bindings are searched on the template with its meta literals. */
  method GroundRules(findBindings: (Constraint, nat, nat) -> set<Binding>, maxClauses: nat, maxVars: nat,
                     rules: set<Constraint>) returns (out: set<GroundRule>)
    ensures out == GroundAll(rules, findBindings, maxClauses, maxVars)
    ensures rules == {} ==> out == {}
    ensures forall g :: g in out ==>
      exists c, b :: c in rules && b in findBindings(c, maxClauses, maxVars) && g == GroundConstraint(StripMeta(c), b)
  {
    out := {};
    var todo := rules;
    while todo != {}
      invariant todo <= rules
      invariant out == GroundAll(rules - todo, findBindings, maxClauses, maxVars)
      decreases |todo|
    {
      var c :| c in todo;
      var grounded := GroundTemplate(StripMeta(c), findBindings(c, maxClauses, maxVars));
      out := out + grounded;
      assert rules - (todo - {c}) == (rules - todo) + {c};
      GroundAllUnion(rules - todo, {c}, findBindings, maxClauses, maxVars);
      GroundAllSingle(c, findBindings, maxClauses, maxVars);
      todo := todo - {c};
    }
  }

  /** No grounded body holds a meta literal: every grounded body atom is the
      grounding of a non-meta body literal of some input template. */
  lemma GroundedBodiesAreDomainLiterals(rules: set<Constraint>, findBindings: (Constraint, nat, nat) -> set<Binding>,
                                        maxClauses: nat, maxVars: nat, g: GroundRule, a: Atom)
    requires g in GroundAll(rules, findBindings, maxClauses, maxVars)
    requires a in g.body
    ensures exists c, b, l :: c in rules && b in findBindings(c, maxClauses, maxVars)
                              && l in c.body && !l.meta && a == GroundLiteral(l, b)
  {
    var c, b :| c in rules && b in findBindings(c, maxClauses, maxVars) && g == GroundConstraint(StripMeta(c), b);
    var l :| l in StripMeta(c).body && a == GroundLiteral(l, b);
    assert l in c.body && !l.meta;
  }

  /** Grounding distributes over the union of template sets, so the result
      does not depend on the order in which templates are visited. */
  lemma GroundAllUnion(r1: set<Constraint>, r2: set<Constraint>, findBindings: (Constraint, nat, nat) -> set<Binding>,
                       maxClauses: nat, maxVars: nat)
    ensures GroundAll(r1 + r2, findBindings, maxClauses, maxVars)
         == GroundAll(r1, findBindings, maxClauses, maxVars) + GroundAll(r2, findBindings, maxClauses, maxVars)
  {
  }

  /** The inner loop of the grounding: one ground rule per binding of the
      template. */
  method GroundTemplate(stripped: Constraint, assignments: set<Binding>) returns (grounded: set<GroundRule>)
    ensures grounded == set b | b in assignments :: GroundConstraint(stripped, b)
  {
    grounded := {};
    var pending := assignments;
    while pending != {}
      invariant pending <= assignments
      invariant grounded == set b | b in assignments - pending :: GroundConstraint(stripped, b)
      decreases |pending|
    {
      var b :| b in pending;
      grounded := grounded + {GroundConstraint(stripped, b)};
      pending := pending - {b};
    }
    assert assignments - pending == assignments;
  }

  /** A single template grounds to one rule per binding. */
  lemma GroundAllSingle(c: Constraint, findBindings: (Constraint, nat, nat) -> set<Binding>,
                        maxClauses: nat, maxVars: nat)
    ensures GroundAll({c}, findBindings, maxClauses, maxVars)
         == set b | b in findBindings(c, maxClauses, maxVars) :: GroundConstraint(StripMeta(c), b)
  {
  }

  // ---------------------------------------------------------------------
  // The search driver

  /** Constraint sets buffered before they are pushed to the solver. */
  const BufferLimit: nat := 1000

  /** The collaborators of the driver: the evaluator, the specialisation
      constraint builder, the binding search, the program printer, and the
      solver's clause and variable bounds. */
  datatype Oracles = Oracles(
    test: Program -> ConfusionMatrix,
    specialise: Candidate -> set<Constraint>,
    findBindings: (Constraint, nat, nat) -> set<Binding>,
    format: Program -> string,
    maxClauses: nat,
    maxVars: nat)

  /** Test, classify, build and ground the constraints of one candidate. */
  function Process(c: Candidate, o: Oracles): (r: set<GroundRule>)
    ensures r != {} ==> o.test(c.program).tp + o.test(c.program).fp == 0
    ensures o.test(c.program).tp + o.test(c.program).fp == 0 ==>
      r == GroundAll(o.specialise(c), o.findBindings, o.maxClauses, o.maxVars)
  {
    var cm := o.test(c.program);
    GroundAll(BuildRules(o.specialise, c, DecideOutcome(cm), cm), o.findBindings, o.maxClauses, o.maxVars)
  }

  /** A candidate that covers any example yields no constraints. */
  lemma CoveringCandidateIsAccepted(c: Candidate, o: Oracles)
    requires o.test(c.program).tp + o.test(c.program).fp > 0
    ensures RuleSetOf(c, o) == []
    ensures AcceptedOf(c, o) == {o.format(c.program)}
  {
  }

  /** What one candidate appends to the buffer: its constraint set, if
      that set is non-empty. */
  function RuleSetOf(c: Candidate, o: Oracles): (r: seq<set<GroundRule>>)
    ensures |r| <= 1
  {
    if Process(c, o) != {} then [Process(c, o)] else []
  }

  /** What one candidate adds to validTactics: its printed program, if it
      produced no constraint. */
  function AcceptedOf(c: Candidate, o: Oracles): set<string>
  {
    if Process(c, o) != {} then {} else {o.format(c.program)}
  }

  /** Each candidate does exactly one of the two things. */
  lemma BufferedOrAccepted(c: Candidate, o: Oracles)
    ensures |RuleSetOf(c, o)| == 1 <==> AcceptedOf(c, o) == {}
    ensures |RuleSetOf(c, o)| == 1 ==> RuleSetOf(c, o)[0] != {}
    ensures AcceptedOf(c, o) != {} ==> AcceptedOf(c, o) == {o.format(c.program)}
  {
  }

  /** The non-empty constraint sets the candidates produce, in order. */
  function RuleSets(cs: seq<Candidate>, o: Oracles): (r: seq<set<GroundRule>>)
    ensures |r| <= |cs|
    ensures forall i :: 0 <= i < |r| ==> r[i] != {}
  {
    if cs == [] then [] else RuleSetOf(cs[0], o) + RuleSets(cs[1..], o)
  }

  /** The printed programs of the candidates that produce no constraint. */
  function Accepted(cs: seq<Candidate>, o: Oracles): set<string>
  {
    if cs == [] then {} else AcceptedOf(cs[0], o) + Accepted(cs[1..], o)
  }

  lemma {:induction false} RuleSetsAppend(a: seq<Candidate>, b: seq<Candidate>, o: Oracles)
    ensures RuleSets(a + b, o) == RuleSets(a, o) + RuleSets(b, o)
    decreases |a|
  {
    if a != [] {
      assert (a + b)[1..] == a[1..] + b;
      RuleSetsAppend(a[1..], b, o);
    } else {
      assert a + b == b;
    }
  }

  lemma {:induction false} AcceptedAppend(a: seq<Candidate>, b: seq<Candidate>, o: Oracles)
    ensures Accepted(a + b, o) == Accepted(a, o) + Accepted(b, o)
    decreases |a|
  {
    if a != [] {
      assert (a + b)[1..] == a[1..] + b;
      AcceptedAppend(a[1..], b, o);
    } else {
      assert a + b == b;
    }
  }

  /** validTactics collects exactly the printed programs of candidates that
      produced no constraint. */
  lemma {:induction false} AcceptedMembers(cs: seq<Candidate>, o: Oracles, x: string)
    ensures x in Accepted(cs, o) <==> exists i :: AcceptedAt(cs, i, o, x)
    decreases |cs|
  {
    if cs != [] {
      AcceptedMembers(cs[1..], o, x);
      if x in AcceptedOf(cs[0], o) {
        assert AcceptedAt(cs, 0, o, x);
      }
      if x in Accepted(cs[1..], o) {
        var i :| AcceptedAt(cs[1..], i, o, x);
        assert AcceptedAt(cs, i + 1, o, x);
      }
      if exists i :: AcceptedAt(cs, i, o, x) {
        var i :| AcceptedAt(cs, i, o, x);
        if i > 0 {
          assert AcceptedAt(cs[1..], i - 1, o, x);
        } else {
          assert x in AcceptedOf(cs[0], o);
        }
      }
    }
  }

  /** The i-th candidate was accepted and printed as x. */
  ghost predicate AcceptedAt(cs: seq<Candidate>, i: int, o: Oracles, x: string)
  {
    0 <= i < |cs| && Process(cs[i], o) == {} && x == o.format(cs[i].program)
  }


  /** One solver session, at a given size, recorded once it ends. */
  datatype Session = Session(size: nat, flushed: bool)

  datatype SearchState = SearchState(
    size: nat,                           // the size bound of the next session
    buffer: seq<set<GroundRule>>,        // grounded constraint sets not yet pushed
    knowledge: seq<set<GroundRule>>,     // constraint sets pushed to the solver
    validTactics: set<string>,           // printed programs that produced no constraint
    tested: seq<Candidate>,              // every candidate drawn so far, in order
    sessions: seq<Session>)              // every finished session, in order

  /** How many candidates one open session draws, `buffered` sets already
      being in the buffer: one more for each candidate while the buffer is
      below BufferLimit after it, stopping at the end of the stream. */
  function Drawn(buffered: nat, cands: seq<Candidate>, o: Oracles): nat
    decreases |cands|
  {
    if cands == [] then 0
    else
      var filled := buffered + |RuleSetOf(cands[0], o)|;
      if filled >= BufferLimit then 1 else 1 + Drawn(filled, cands[1..], o)
  }

  /** Drawing k candidates respects the buffer: the buffer ends at most
      full, it ends below the limit only when the stream is exhausted, a
      non-empty stream is drawn from, and the buffer was below the limit
      before the last candidate drawn. */
  ghost predicate DrawBounded(buffered: nat, cands: seq<Candidate>, o: Oracles, k: nat)
  {
    && k <= |cands|
    && buffered + |RuleSets(cands[..k], o)| <= BufferLimit
    && (buffered + |RuleSets(cands[..k], o)| < BufferLimit ==> k == |cands|)
    && (cands != [] ==> k > 0)
    && (k > 0 ==> buffered + |RuleSets(cands[..k - 1], o)| < BufferLimit)
  }

  /** The draw stops right after the candidate whose constraint set fills
      the buffer to BufferLimit, or at the end of the session's stream. */
  lemma {:induction false} DrawnBounds(buffered: nat, cands: seq<Candidate>, o: Oracles)
    requires buffered < BufferLimit
    ensures DrawBounded(buffered, cands, o, Drawn(buffered, cands, o))
    decreases |cands|
  {
    if cands == [] {
      assert cands[..0] == [];
    } else {
      var filled := buffered + |RuleSetOf(cands[0], o)|;
      if filled >= BufferLimit {
        ConsumedFirst(buffered, cands, o);
      } else {
        var k := Drawn(filled, cands[1..], o);
        DrawnBounds(filled, cands[1..], o);
        assert Drawn(buffered, cands, o) == k + 1;
        ConsumedMore(buffered, cands, o, k);
      }
    }
  }

  /** How many candidates one open session draws, `buffered` sets already
      being in the buffer: the draw stops right after the candidate whose
      constraint set fills the buffer to BufferLimit, or at the end of the
      session's stream. */
  function Consumed(buffered: nat, cands: seq<Candidate>, o: Oracles): (k: nat)
    requires buffered < BufferLimit
    ensures k <= |cands|
    ensures buffered + |RuleSets(cands[..k], o)| <= BufferLimit
    ensures buffered + |RuleSets(cands[..k], o)| < BufferLimit ==> k == |cands|
    ensures cands != [] ==> k > 0
    ensures k > 0 ==> buffered + |RuleSets(cands[..k - 1], o)| < BufferLimit
  {
    DrawnBounds(buffered, cands, o);
    Drawn(buffered, cands, o)
  }

  /** Draws candidates from one open session until the session is exhausted
      or the buffer reaches BufferLimit. Each candidate drawn either appends
      its non-empty constraint set to the buffer or adds its printed program
      to validTactics. */
  function Drain(s: SearchState, cands: seq<Candidate>, o: Oracles): (r: SearchState)
    requires |s.buffer| < BufferLimit
    ensures r.size == s.size && r.knowledge == s.knowledge && r.sessions == s.sessions
    ensures |r.buffer| <= BufferLimit
    ensures |s.tested| <= |r.tested| <= |s.tested| + |cands|
    ensures r.tested == s.tested + cands[..|r.tested| - |s.tested|]
    ensures |r.buffer| < BufferLimit ==> r.tested == s.tested + cands
    ensures |r.tested| > |s.tested| ==>
      |s.buffer| + |RuleSets(cands[..|r.tested| - |s.tested| - 1], o)| < BufferLimit
    ensures r.buffer == s.buffer + RuleSets(cands[..|r.tested| - |s.tested|], o)
    ensures r.validTactics == s.validTactics + Accepted(cands[..|r.tested| - |s.tested|], o)
  {
    var k := Consumed(|s.buffer|, cands, o);
    assert k == |cands| ==> cands[..k] == cands;
    s.(buffer := s.buffer + RuleSets(cands[..k], o),
       validTactics := s.validTactics + Accepted(cands[..k], o),
       tested := s.tested + cands[..k])
  }

  /** A prefix of k + 1 candidates is the first one followed by k more. */
  lemma PrefixUnfold(cands: seq<Candidate>, k: nat, o: Oracles)
    requires k < |cands|
    ensures cands[..k + 1] == [cands[0]] + cands[1..][..k]
    ensures RuleSets(cands[..k + 1], o) == RuleSetOf(cands[0], o) + RuleSets(cands[1..][..k], o)
    ensures Accepted(cands[..k + 1], o) == AcceptedOf(cands[0], o) + Accepted(cands[1..][..k], o)
  {
    var p := cands[..k + 1];
    assert p[0] == cands[0];
    assert p[1..] == cands[1..][..k];
  }

  /** A first candidate that fills the buffer is the only one drawn. */
  lemma ConsumedFirst(buffered: nat, cands: seq<Candidate>, o: Oracles)
    requires cands != [] && buffered < BufferLimit
    requires buffered + |RuleSetOf(cands[0], o)| >= BufferLimit
    ensures DrawBounded(buffered, cands, o, 1)
  {
    PrefixUnfold(cands, 0, o);
    assert cands[..0] == [];
  }

  /** The bounds of Consumed carry over from the candidates after the first
      to all of them, when the first one leaves the buffer below the limit. */
  lemma ConsumedMore(buffered: nat, cands: seq<Candidate>, o: Oracles, k: nat)
    requires cands != [] && k < |cands|
    requires buffered + |RuleSetOf(cands[0], o)| < BufferLimit
    requires DrawBounded(buffered + |RuleSetOf(cands[0], o)|, cands[1..], o, k)
    ensures DrawBounded(buffered, cands, o, k + 1)
  {
    PrefixUnfold(cands, k, o);
    PrefixShorter(cands, k, o);
    if k == 0 {
      assert cands[..0] == [];
    }
  }

  /** A non-empty prefix of k candidates is the first one followed by
      k - 1 more. */
  lemma PrefixShorter(cands: seq<Candidate>, k: nat, o: Oracles)
    requires k < |cands|
    ensures k > 0 ==> RuleSets(cands[..k], o) == RuleSetOf(cands[0], o) + RuleSets(cands[1..][..k - 1], o)
  {
    if k > 0 {
      PrefixUnfold(cands, k - 1, o);
    }
  }

  /** The sessions, read from the first, start at size 1; a flushed session
      is followed by one at the same size, any other by one at the next size;
      `next` is the size of the session that would come next. */
  ghost predicate SessionsInOrder(ss: seq<Session>, next: nat)
    decreases |ss|
  {
    if ss == [] then next == 1
    else
      var last := ss[|ss| - 1];
      && SessionsInOrder(ss[..|ss| - 1], last.size)
      && next == (if last.flushed then last.size else last.size + 1)
  }

  /** Number of sessions that ended in a flush. */
  function Flushes(ss: seq<Session>): nat
  {
    if ss == [] then 0 else Flushes(ss[..|ss| - 1]) + (if ss[|ss| - 1].flushed then 1 else 0)
  }

  /** One session of the solver at the current size: drain it, then either
      flush the full buffer into the solver and restart at the same size, or
      advance the size keeping the (not full) buffer as it is. */
  function Step(s: SearchState, stream: (nat, seq<set<GroundRule>>) -> seq<Candidate>, o: Oracles): (r: SearchState)
    requires |s.buffer| < BufferLimit
    ensures |r.buffer| < BufferLimit
    ensures r.sessions == s.sessions + [Session(s.size, r.size == s.size)]
    ensures r.size == s.size || r.size == s.size + 1
    ensures |s.tested| <= |r.tested| <= |s.tested| + |stream(s.size, s.knowledge)|
    ensures r.tested == s.tested + stream(s.size, s.knowledge)[..|r.tested| - |s.tested|]
    ensures r.size == s.size + 1 ==> r.tested == s.tested + stream(s.size, s.knowledge)
    ensures |r.tested| > |s.tested| ==>
      |s.buffer| + |RuleSets(stream(s.size, s.knowledge)[..|r.tested| - |s.tested| - 1], o)| < BufferLimit
    ensures r.size == s.size ==>
      && r.buffer == []
      && r.knowledge == s.knowledge + s.buffer + RuleSets(r.tested[|s.tested|..], o)
      && |r.knowledge| == |s.knowledge| + BufferLimit
    ensures r.size == s.size + 1 ==>
      && r.knowledge == s.knowledge
      && r.buffer == s.buffer + RuleSets(r.tested[|s.tested|..], o)
    ensures r.knowledge + r.buffer == s.knowledge + s.buffer + RuleSets(r.tested[|s.tested|..], o)
    ensures r.validTactics == s.validTactics + Accepted(r.tested[|s.tested|..], o)
  {
    var cands := stream(s.size, s.knowledge);
    var d := Drain(s, cands, o);
    var added := cands[..|d.tested| - |s.tested|];
    assert d.tested[|s.tested|..] == added;
    assert d.knowledge + d.buffer == s.knowledge + s.buffer + RuleSets(added, o);
    if |d.buffer| >= BufferLimit then
      d.(knowledge := d.knowledge + d.buffer, buffer := [], sessions := d.sessions + [Session(s.size, true)])
    else
      d.(size := d.size + 1, sessions := d.sessions + [Session(s.size, false)])
  }

  /** The driver state before the first session: size 1, nothing pushed,
      buffered or tested. */
  const Initial: SearchState := SearchState(1, [], [], {}, [], [])

  /** The state after n sessions run from s, one Step per session. */
  function Run(s: SearchState, stream: (nat, seq<set<GroundRule>>) -> seq<Candidate>, o: Oracles, n: nat): (r: SearchState)
    requires |s.buffer| < BufferLimit
    ensures |r.buffer| < BufferLimit
    ensures |r.sessions| == |s.sessions| + n
    ensures r.sessions[..|s.sessions|] == s.sessions
    decreases n
  {
    if n == 0 then s else Step(Run(s, stream, o, n - 1), stream, o)
  }

  /** What holds of the driver state between sessions. */
  ghost predicate Consistent(s: SearchState, o: Oracles, maxLiterals: nat)
  {
    && 1 <= s.size <= maxLiterals + 1
    && |s.buffer| < BufferLimit
    && s.knowledge + s.buffer == RuleSets(s.tested, o)
    && s.validTactics == Accepted(s.tested, o)
    && |s.knowledge| == BufferLimit * Flushes(s.sessions)
    && SessionsInOrder(s.sessions, s.size)
    && (forall i :: 0 <= i < |s.sessions| ==> s.sessions[i].size <= maxLiterals)
  }

  lemma StepKeepsConsistent(s: SearchState, stream: (nat, seq<set<GroundRule>>) -> seq<Candidate>,
                            o: Oracles, maxLiterals: nat)
    requires Consistent(s, o, maxLiterals)
    requires s.size <= maxLiterals
    ensures Consistent(Step(s, stream, o), o, maxLiterals)
  {
    var r := Step(s, stream, o);
    StepAccounts(s, stream, o);
    SessionAppended(s.sessions, s.size, r.size == s.size);
  }

  /** A session keeps every constraint set produced, and every accepted
      program, accounted for in production order. */
  lemma StepAccounts(s: SearchState, stream: (nat, seq<set<GroundRule>>) -> seq<Candidate>, o: Oracles)
    requires |s.buffer| < BufferLimit
    requires s.knowledge + s.buffer == RuleSets(s.tested, o)
    requires s.validTactics == Accepted(s.tested, o)
    ensures var r := Step(s, stream, o);
      && r.knowledge + r.buffer == RuleSets(r.tested, o)
      && r.validTactics == Accepted(r.tested, o)
  {
    var r := Step(s, stream, o);
    var added := r.tested[|s.tested|..];
    assert r.tested == s.tested + added;
    RuleSetsAppend(s.tested, added, o);
    AcceptedAppend(s.tested, added, o);
  }

  /** Appending the session just finished keeps the sessions in order and
      counts a flush exactly when it flushed. */
  lemma SessionAppended(ss: seq<Session>, size: nat, flushed: bool)
    ensures Flushes(ss + [Session(size, flushed)]) == Flushes(ss) + (if flushed then 1 else 0)
    ensures SessionsInOrder(ss, size) ==>
      SessionsInOrder(ss + [Session(size, flushed)], if flushed then size else size + 1)
  {
    assert (ss + [Session(size, flushed)])[..|ss|] == ss;
  }

  /** Runs the driver for sizes 1..maxLiterals. The solver's candidate stream
      is a function of the size and of the constraint sets pushed so far. The
      driver itself has no time limit, and a size whose sessions keep filling
      the buffer is retried without end; `budget` caps the number of sessions
      so that the method terminates, and the run stops early, with completed
      false, once that many sessions have been opened. The final state is the
      one Run reaches from Initial after that many sessions. */
  method Popper(maxLiterals: nat, stream: (nat, seq<set<GroundRule>>) -> seq<Candidate>,
                o: Oracles, budget: nat) returns (s: SearchState, completed: bool)
    ensures completed <==> s.size == maxLiterals + 1
    ensures 1 <= s.size <= maxLiterals + 1
    ensures |s.buffer| < BufferLimit
    ensures s.knowledge + s.buffer == RuleSets(s.tested, o)
    ensures s.validTactics == Accepted(s.tested, o)
    ensures |s.knowledge| == BufferLimit * Flushes(s.sessions)
    ensures SessionsInOrder(s.sessions, s.size)
    ensures forall i :: 0 <= i < |s.sessions| ==> s.sessions[i].size <= maxLiterals
    ensures |s.sessions| <= budget
    ensures !completed ==> |s.sessions| == budget
    ensures s == Run(Initial, stream, o, |s.sessions|)
  {
    s := Initial;
    var fuel := budget;
    while s.size <= maxLiterals && fuel > 0
      invariant Consistent(s, o, maxLiterals)
      invariant |s.sessions| + fuel == budget
      invariant s == Run(Initial, stream, o, |s.sessions|)
      decreases fuel
    {
      StepKeepsConsistent(s, stream, o, maxLiterals);
      s := Step(s, stream, o);
      fuel := fuel - 1;
    }
    completed := s.size == maxLiterals + 1;
  }

  /** Some session at size z ran its stream to the end without a flush. */
  ghost predicate Exhausted(ss: seq<Session>, z: nat)
  {
    exists i :: 0 <= i < |ss| && ss[i].size == z && !ss[i].flushed
  }

  /** Sizes are visited in increasing order, every session size lies between
      1 and the next size, and every size below the next one has had a
      session that ended without a flush (its stream was exhausted). */
  lemma {:induction false} SessionsIncrease(ss: seq<Session>, next: nat)
    requires SessionsInOrder(ss, next)
    ensures forall i :: 0 <= i < |ss| ==> 1 <= ss[i].size <= next
    ensures forall i, j :: 0 <= i < j < |ss| ==> ss[i].size <= ss[j].size
    ensures forall z :: 1 <= z < next ==> Exhausted(ss, z)
    decreases |ss|
  {
    if ss != [] {
      var init := ss[..|ss| - 1];
      var last := ss[|ss| - 1];
      SessionsIncrease(init, last.size);
      assert forall i :: 0 <= i < |init| ==> ss[i] == init[i];
      forall z | 1 <= z < next
        ensures Exhausted(ss, z)
      {
        if z < last.size {
          assert Exhausted(init, z);
          var i :| 0 <= i < |init| && init[i].size == z && !init[i].flushed;
          assert ss[i] == init[i];
        } else {
          assert ss[|ss| - 1].size == z && !ss[|ss| - 1].flushed;
        }
      }
    }
  }
}
