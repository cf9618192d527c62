/** The program model the search works on: terms, literals, clauses,
    constraint templates, and the grounding of a template under a binding. */
module Programs {
  import W = Wrappers

  datatype Term = Var(name: string) | Const(value: string)

  /** A predicate application; `meta` marks the bookkeeping literals that
      only drive binding search and never reach a grounded constraint. */
  datatype Literal = Literal(name: string, arguments: seq<Term>, meta: bool)
  {
    function Arity(): nat { |arguments| }
  }

  /** A program clause: a head and an ordered body. */
  datatype Clause = Clause(head: Literal, body: seq<Literal>)

  /** A program is a sequence of clauses (iteration order is reproducible). */
  type Program = seq<Clause>

  /** An abstract constraint template; integrity constraints have no head. */
  datatype Constraint = Constraint(head: W.Option<Literal>, body: seq<Literal>)

  /** An assignment of constant values to template variables. */
  type Binding = map<string, string>

  /** A grounded literal: the meta flag is gone, only predicate and arguments remain. */
  datatype Atom = Atom(name: string, arguments: seq<Term>)

  /** A grounded constraint: its body is a set, so repeated literals collapse. */
  datatype GroundRule = GroundRule(head: W.Option<Atom>, body: set<Atom>)

  /** The body literals that are not meta literals, in their original order. */
  function DomainLiterals(body: seq<Literal>): (r: seq<Literal>)
    ensures |r| <= |body|
    ensures forall l :: l in r ==> l in body && !l.meta
    ensures forall l :: l in body && !l.meta ==> l in r
  {
    if body == [] then []
    else if body[0].meta then DomainLiterals(body[1..])
    else [body[0]] + DomainLiterals(body[1..])
  }

  /** The template with its meta literals dropped from the body. */
  function StripMeta(c: Constraint): (r: Constraint)
    ensures r.head == c.head
    ensures forall l :: l in r.body ==> l in c.body && !l.meta
    ensures forall l :: l in c.body && !l.meta ==> l in r.body
  {
    Constraint(c.head, DomainLiterals(c.body))
  }

  function SubstituteTerm(t: Term, b: Binding): Term
  {
    match t
    case Var(x) => if x in b then Const(b[x]) else t
    case Const(_) => t
  }

  function SubstituteArgs(args: seq<Term>, b: Binding): (r: seq<Term>)
    ensures |r| == |args|
    ensures forall i :: 0 <= i < |args| ==> r[i] == SubstituteTerm(args[i], b)
  {
    seq(|args|, i requires 0 <= i < |args| => SubstituteTerm(args[i], b))
  }

  function GroundLiteral(l: Literal, b: Binding): Atom
  {
    Atom(l.name, SubstituteArgs(l.arguments, b))
  }

  /** Grounding of one template under one binding: every argument variable
      the binding assigns is replaced by its value. */
  function GroundConstraint(c: Constraint, b: Binding): GroundRule
  {
    var head := match c.head
      case None => W.None
      case Some(h) => W.Some(GroundLiteral(h, b));
    GroundRule(head, set l | l in c.body :: GroundLiteral(l, b))
  }

  /** Grounding is a function of the template and the binding: the same pair
      always gives the same grounded constraint, and a body that repeats a
      literal grounds to the same constraint as the body without the repeat. */
  lemma GroundingIgnoresRepeats(c: Constraint, b: Binding, l: Literal)
    requires l in c.body
    ensures GroundConstraint(Constraint(c.head, c.body + [l]), b) == GroundConstraint(c, b)
  {
    var extended := Constraint(c.head, c.body + [l]);
    assert forall x :: x in extended.body <==> x in c.body;
  }
}
