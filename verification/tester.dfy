/** The tester's bookkeeping around the logic-program evaluator: its own
    outcome classification, the scoped assertion of a program into the
    evaluator's clause database, and the deduplication of clauses checked
    for redundant literals. The evaluator's queries are oracles. */
module Tester {
  import W = Wrappers
  import opened Programs
  import opened Loop

  /** The evaluator's clause database, in assertion order. */
  type Database = seq<Clause>

  /** A clause is retracted by the predicate name and arity of its head. */
  datatype Key = Key(name: string, arity: nat)

  function KeyOf(c: Clause): Key
  {
    Key(c.head.name, c.head.Arity())
  }

  function HeadKeys(p: Program): set<Key>
  {
    set i | 0 <= i < |p| :: KeyOf(p[i])
  }

  /** The tester's classification. Completeness is judged by the true
      positives reaching the number of positive examples, whatever the false
      negatives; the negative side is never All. */
  function TestOutcome(numPos: nat, cm: ConfusionMatrix): (r: OutcomePair)
    ensures r.0 == All <==> cm.tp == numPos
    ensures r.0 == None <==> cm.tp != numPos && cm.tp == 0 && cm.fn > 0
    ensures r.0 == Some <==> cm.tp != numPos && (cm.tp > 0 || cm.fn == 0)
    ensures r.1 == None <==> cm.fp == 0
    ensures r.1 != All
  {
    var positive :=
      if cm.tp == numPos then All
      else if cm.tp == 0 && cm.fn > 0 then None
      else Some;
    var negative := if cm.fp == 0 then None else Some;
    (positive, negative)
  }

  /** When every positive example was tested (tp + fn = numPos) the tester
      and the search loop classify alike. */
  lemma TestOutcomeAgreesOnFullTesting(numPos: nat, cm: ConfusionMatrix)
    requires cm.tp + cm.fn == numPos
    ensures TestOutcome(numPos, cm) == DecideOutcome(cm)
  {
  }

  /** Under minimal testing the two classifications part: two positives, one
      found and none reported missed, is Some here but All in the loop; and
      with no positive examples at all the tester says All even when it
      reports a miss. */
  lemma TestOutcomeDiffersUnderMinimalTesting()
    ensures TestOutcome(2, ConfusionMatrix(1, 0, 0, 0)).0 == Some
    ensures DecideOutcome(ConfusionMatrix(1, 0, 0, 0)).0 == All
    ensures TestOutcome(0, ConfusionMatrix(0, 1, 0, 0)).0 == All
    ensures DecideOutcome(ConfusionMatrix(0, 1, 0, 0)).0 == None
  {
  }

  /** Removes every clause whose head has one of the keys (one retractall per
      key), keeping the other clauses in order. */
  function Retract(db: Database, keys: set<Key>): (r: Database)
    ensures |r| <= |db|
    ensures forall c :: c in r <==> c in db && KeyOf(c) !in keys
  {
    if db == [] then []
    else (if KeyOf(db[0]) in keys then [] else [db[0]]) + Retract(db[1..], keys)
  }

  /** How many clauses of the program are asserted before the evaluator
      rejects one (all of them when it rejects none). */
  function AssertedPrefix(program: Program, accepts: Clause -> bool): (n: nat)
    ensures n <= |program|
    ensures forall i :: 0 <= i < n ==> accepts(program[i])
    ensures n < |program| ==> !accepts(program[n])
  {
    if program == [] || !accepts(program[0]) then 0
    else 1 + AssertedPrefix(program[1..], accepts)
  }

  /** The database after a scoped block, and the block's value when neither
      the assertions nor the block raised. */
  datatype Scoped<R> = Scoped(db: Database, result: W.Option<R>)

  /** A block run inside the scope: it sees the extended database and
      returns the database after it and its value, or None when it raised. */
  type Block<R> = Database -> (Database, W.Option<R>)

  /** No clause of the database has one of the keys. */
  ghost predicate Cleared(db: Database, keys: set<Key>)
  {
    forall c :: c in db ==> KeyOf(c) !in keys
  }

  /** The clauses of after are exactly those of before without the keys. */
  ghost predicate Survivors(after: Database, before: Database, keys: set<Key>)
  {
    forall c :: c in after <==> c in before && KeyOf(c) !in keys
  }

  /** Asserts the program's clauses one by one, runs the block on the
      extended database, and on every exit path retracts all clauses of each
      head key recorded so far. A key is recorded only after its clause was
      asserted, so when an assertion raises only the keys of the asserted
      prefix are retracted. */
  function Using<R>(db: Database, program: Program, accepts: Clause -> bool, block: Block<R>): (r: Scoped<R>)
    ensures Cleared(r.db, HeadKeys(program[..AssertedPrefix(program, accepts)]))
    ensures AssertedPrefix(program, accepts) == |program| ==> Cleared(r.db, HeadKeys(program))
    ensures r.result.Some? ==> AssertedPrefix(program, accepts) == |program|
    ensures AssertedPrefix(program, accepts) < |program| ==>
      Survivors(r.db, db, HeadKeys(program[..AssertedPrefix(program, accepts)]))
    ensures AssertedPrefix(program, accepts) == |program| ==>
      && r.result == block(db + program).1
      && r.db == Retract(block(db + program).0, HeadKeys(program))
  {
    var n := AssertedPrefix(program, accepts);
    var asserted := db + program[..n];
    var keys := HeadKeys(program[..n]);
    assert forall i :: 0 <= i < n ==> KeyOf(program[..n][i]) in keys;
    if n < |program| then
      Scoped(Retract(asserted, keys), W.None)
    else
      assert program[..n] == program;
      var (after, result) := block(asserted);
      Scoped(Retract(after, keys), result)
  }

  /** The result of Tester.test: the outcome pair with the counts exactly as
      the evaluator reported them, or the raised error; either way the
      database after the scope. */
  datatype TestRun = Tested(outcome: OutcomePair, counts: ConfusionMatrix, db: Database) | Raised(db: Database)

  /** Tests a program: inside the scope of its assertion, asks the evaluator
      for the counts (the full or the minimal test), then classifies them. */
  function Test(numPos: nat, testAll: bool, db: Database, program: Program, accepts: Clause -> bool,
                query: (bool, Database) -> W.Option<ConfusionMatrix>): (r: TestRun)
    ensures r.Tested? <==> AssertedPrefix(program, accepts) == |program| && query(testAll, db + program).Some?
    ensures r.Tested? ==> r.counts == query(testAll, db + program).value
                          && r.outcome == TestOutcome(numPos, r.counts)
    ensures AssertedPrefix(program, accepts) == |program| ==> r.db == Retract(db + program, HeadKeys(program))
    ensures forall c :: c in r.db ==> c in db
  {
    var run := Using(db, program, accepts, (d: Database) => (d, query(testAll, d)));
    assert forall i :: 0 <= i < |program| ==> KeyOf(program[i]) in HeadKeys(program);
    if run.result.Some? then Tested(TestOutcome(numPos, run.result.value), run.result.value, run.db)
    else Raised(run.db)
  }

  /** A pre-existing clause of a predicate the program defines does not
      survive a test, whatever the test's outcome. */
  lemma TestRemovesPreexistingClauses(numPos: nat, testAll: bool, db: Database, program: Program,
                                      accepts: Clause -> bool, query: (bool, Database) -> W.Option<ConfusionMatrix>,
                                      old_clause: Clause, i: nat)
    requires old_clause in db
    requires i < |program| && KeyOf(old_clause) == KeyOf(program[i])
    requires AssertedPrefix(program, accepts) == |program|
    ensures old_clause !in Test(numPos, testAll, db, program, accepts, query).db
  {
    assert KeyOf(program[i]) in HeadKeys(program);
  }

  /** The clauses of the sequence that the oracle judges redundant, in order. */
  function Redundant(cs: seq<Clause>, redundant: Clause -> bool): (r: seq<Clause>)
    ensures forall c :: c in r ==> c in cs && redundant(c)
    ensures forall c :: c in cs && redundant(c) ==> c in r
  {
    if cs == [] then []
    else Redundant(cs[..|cs| - 1], redundant) + (if redundant(cs[|cs| - 1]) then [cs[|cs| - 1]] else [])
  }

  /** The hashes of the first n clauses of the program. */
  function PrefixHashes(program: Program, n: nat, hash: Clause -> int): set<int>
    requires n <= |program|
  {
    set j | 0 <= j < n :: hash(program[j])
  }

  /** The hashes of the queried clauses. */
  function Hashes(cs: seq<Clause>, hash: Clause -> int): set<int>
  {
    set q | q in cs :: hash(q)
  }

  lemma PrefixHashesStep(program: Program, n: nat, hash: Clause -> int)
    requires n < |program|
    ensures PrefixHashes(program, n + 1, hash) == PrefixHashes(program, n, hash) + {hash(program[n])}
  {
  }

  lemma HashesAppend(cs: seq<Clause>, c: Clause, hash: Clause -> int)
    ensures Hashes(cs + [c], hash) == Hashes(cs, hash) + {hash(c)}
  {
  }

  lemma RedundantAppend(cs: seq<Clause>, c: Clause, redundant: Clause -> bool)
    ensures Redundant(cs + [c], redundant) == Redundant(cs, redundant) + (if redundant(c) then [c] else [])
  {
    assert (cs + [c])[..|cs|] == cs;
  }

  /** The clauses of cs worth a query, in order: each whose hash is neither
      in seen nor the hash of an earlier clause of cs. */
  function Fresh(cs: seq<Clause>, seen: set<int>, hash: Clause -> int): seq<Clause>
    decreases |cs|
  {
    if cs == [] then []
    else
      var init := cs[..|cs| - 1];
      var c := cs[|cs| - 1];
      Fresh(init, seen, hash) + (if hash(c) in seen + Hashes(init, hash) then [] else [c])
  }

  /** Checking the clause at index i extends the fresh clauses of the first i
      with that clause exactly when its hash is not seen so far. */
  lemma FreshStep(program: Program, i: nat, seen: set<int>, hash: Clause -> int)
    requires i < |program|
    ensures Fresh(program[..i + 1], seen, hash) ==
      Fresh(program[..i], seen, hash) + (if hash(program[i]) in seen + PrefixHashes(program, i, hash) then [] else [program[i]])
  {
    var p := program[..i + 1];
    assert p[..|p| - 1] == program[..i];
    assert p[|p| - 1] == program[i];
    forall x | x in PrefixHashes(program, i, hash)
      ensures x in Hashes(program[..i], hash)
    {
      var j :| 0 <= j < i && x == hash(program[j]);
      assert program[..i][j] == program[j];
    }
    assert Hashes(program[..i], hash) == PrefixHashes(program, i, hash);
  }

  /** The fresh clauses of the first i + 1, given those of the first i and
      the hashes seen so far. */
  lemma FreshNext(program: Program, i: nat, seen: set<int>, hash: Clause -> int,
                  queried: seq<Clause>, seenAfter: set<int>)
    requires i < |program|
    requires seenAfter == seen + PrefixHashes(program, i, hash)
    requires queried == Fresh(program[..i], seen, hash)
    ensures hash(program[i]) in seenAfter ==> Fresh(program[..i + 1], seen, hash) == queried
    ensures hash(program[i]) !in seenAfter ==> Fresh(program[..i + 1], seen, hash) == queried + [program[i]]
  {
    FreshStep(program, i, seen, hash);
  }

  /** Every queried clause is from the program, was unseen on entry, and no
      two queried clauses share a hash. */
  ghost predicate QueriedOnce(queried: seq<Clause>, program: Program, seen: set<int>, hash: Clause -> int)
  {
    && (forall a :: 0 <= a < |queried| ==> queried[a] in program && hash(queried[a]) !in seen)
    && (forall a, b :: 0 <= a < b < |queried| ==> hash(queried[a]) != hash(queried[b]))
  }

  /** The seen hashes after the first i clauses of the program were
      checked: those seen on entry, those of the first i clauses, and those of
      the queried clauses, alike. */
  ghost predicate HashesTracked(seen: set<int>, program: Program, hash: Clause -> int,
                                i: nat, queried: seq<Clause>, seenAfter: set<int>)
  {
    && i <= |program|
    && seenAfter == seen + PrefixHashes(program, i, hash)
    && seenAfter == seen + Hashes(queried, hash)
  }

  /** Querying the clause at index i records its hash. */
  lemma TrackQuery(seen: set<int>, program: Program, hash: Clause -> int,
                   i: nat, queried: seq<Clause>, seenAfter: set<int>)
    requires HashesTracked(seen, program, hash, i, queried, seenAfter)
    requires i < |program| && hash(program[i]) !in seenAfter
    ensures HashesTracked(seen, program, hash, i + 1, queried + [program[i]], seenAfter + {hash(program[i])})
    ensures hash(program[i]) !in seen && hash(program[i]) !in Hashes(queried, hash)
  {
    PrefixHashesStep(program, i, hash);
    HashesAppend(queried, program[i], hash);
  }

  /** What holds after the first i clauses of the program were checked. */
  ghost predicate CheckedUpTo(seen: set<int>, program: Program, hash: Clause -> int, redundant: Clause -> bool,
                              i: nat, yielded: seq<Clause>, queried: seq<Clause>, seenAfter: set<int>)
  {
    && HashesTracked(seen, program, hash, i, queried, seenAfter)
    && QueriedOnce(queried, program, seen, hash)
    && queried == Fresh(program[..i], seen, hash)
    && yielded == Redundant(queried, redundant)
  }

  /** A clause whose hash is already seen is passed over. */
  lemma SkipNext(seen: set<int>, program: Program, hash: Clause -> int, redundant: Clause -> bool,
                 i: nat, yielded: seq<Clause>, queried: seq<Clause>, seenAfter: set<int>)
    requires CheckedUpTo(seen, program, hash, redundant, i, yielded, queried, seenAfter)
    requires i < |program| && hash(program[i]) in seenAfter
    ensures CheckedUpTo(seen, program, hash, redundant, i + 1, yielded, queried, seenAfter)
  {
    PrefixHashesStep(program, i, hash);
    FreshNext(program, i, seen, hash, queried, seenAfter);
  }

  /** A clause whose hash is not yet seen is queried, its hash recorded, and
      it is yielded when the oracle finds a redundant literal. */
  lemma QueryNext(seen: set<int>, program: Program, hash: Clause -> int, redundant: Clause -> bool,
                  i: nat, yielded: seq<Clause>, queried: seq<Clause>, seenAfter: set<int>)
    requires CheckedUpTo(seen, program, hash, redundant, i, yielded, queried, seenAfter)
    requires i < |program| && hash(program[i]) !in seenAfter
    ensures CheckedUpTo(seen, program, hash, redundant, i + 1,
                        yielded + (if redundant(program[i]) then [program[i]] else []),
                        queried + [program[i]], seenAfter + {hash(program[i])})
  {
    var c := program[i];
    TrackQuery(seen, program, hash, i, queried, seenAfter);
    RedundantAppend(queried, c, redundant);
    QueriedOnceAppend(queried, program, seen, hash, c);
    FreshNext(program, i, seen, hash, queried, seenAfter);
  }

  lemma QueriedOnceAppend(queried: seq<Clause>, program: Program, seen: set<int>, hash: Clause -> int, c: Clause)
    requires QueriedOnce(queried, program, seen, hash)
    requires c in program && hash(c) !in seen && hash(c) !in Hashes(queried, hash)
    ensures QueriedOnce(queried + [c], program, seen, hash)
  {
    var q := queried + [c];
    assert forall a :: 0 <= a < |queried| ==> q[a] == queried[a] && hash(queried[a]) in Hashes(queried, hash);
  }

  /** Checks the clause at index i: a clause whose hash is already seen is
      skipped without a query; otherwise its hash is recorded, the oracle is
      queried, and the clause is yielded when the oracle finds a redundant
      literal. */
  method CheckClause(seen: set<int>, program: Program, hash: Clause -> int, redundant: Clause -> bool,
                     i: nat, yielded: seq<Clause>, queried: seq<Clause>, seenAfter: set<int>)
    returns (yielded': seq<Clause>, queried': seq<Clause>, seenAfter': set<int>)
    requires CheckedUpTo(seen, program, hash, redundant, i, yielded, queried, seenAfter)
    requires i < |program|
    ensures CheckedUpTo(seen, program, hash, redundant, i + 1, yielded', queried', seenAfter')
    ensures hash(program[i]) in seenAfter ==> queried' == queried && yielded' == yielded
    ensures hash(program[i]) !in seenAfter ==> queried' == queried + [program[i]]
  {
    var clause := program[i];
    var k := hash(clause);
    yielded', queried', seenAfter' := yielded, queried, seenAfter;
    if k in seenAfter {
      SkipNext(seen, program, hash, redundant, i, yielded, queried, seenAfter);
    } else {
      QueryNext(seen, program, hash, redundant, i, yielded, queried, seenAfter);
      seenAfter' := seenAfter + {k};
      queried' := queried + [clause];
      if redundant(clause) {
        yielded' := yielded + [clause];
      } else {
        assert yielded + [] == yielded;
      }
    }
  }

  /** Checks each clause of the program for a redundant literal at most once
      per clause hash, in program order (see CheckClause). The generator is
      modelled as run to the end. */
  method CheckRedundantLiteral(seen: set<int>, program: Program, hash: Clause -> int, redundant: Clause -> bool)
    returns (yielded: seq<Clause>, queried: seq<Clause>, seenAfter: set<int>)
    ensures seenAfter == seen + PrefixHashes(program, |program|, hash)
    ensures seenAfter == seen + Hashes(queried, hash)
    ensures forall a :: 0 <= a < |queried| ==> queried[a] in program && hash(queried[a]) !in seen
    ensures forall a, b :: 0 <= a < b < |queried| ==> hash(queried[a]) != hash(queried[b])
    ensures yielded == Redundant(queried, redundant)
    ensures queried == Fresh(program, seen, hash)
  {
    yielded, queried, seenAfter := [], [], seen;
    var i := 0;
    while i < |program|
      invariant CheckedUpTo(seen, program, hash, redundant, i, yielded, queried, seenAfter)
    {
      yielded, queried, seenAfter := CheckClause(seen, program, hash, redundant, i, yielded, queried, seenAfter);
      i := i + 1;
    }
    assert program[..i] == program;
  }

  /** A clause whose hash was already seen is neither queried nor yielded,
      every yielded clause was unseen on entry, and the seen set only grows. */
  lemma SeenClausesAreSkipped(seen: set<int>, program: Program, hash: Clause -> int, redundant: Clause -> bool,
                              yielded: seq<Clause>, queried: seq<Clause>, seenAfter: set<int>, c: Clause)
    requires seenAfter == seen + Hashes(queried, hash)
    requires forall a :: 0 <= a < |queried| ==> queried[a] in program && hash(queried[a]) !in seen
    requires yielded == Redundant(queried, redundant)
    ensures seen <= seenAfter
    ensures hash(c) in seen ==> c !in queried && c !in yielded
    ensures c in yielded ==> c in program && hash(c) !in seen && redundant(c)
  {
  }
}
