/**
 * A group of queries joined by a boolean operator (VuFindSearch\Query\QueryGroup).
 * The operator is validated against AND, OR and NOT; NOT is stored as OR with the
 * negation flag set, so a constructed group only ever holds AND or OR. Children are
 * kept in insertion order and are only ever appended. The negation flag and the list
 * of children start out null (None here) and stay so until something sets them.
 */
module QueryModel {
  import opened Wrappers

  /** A single query: a search term and the handler (field) it is searched in.
      Only its value is modelled; how it is searched is not part of this model. */
  datatype Query = Query(term: string, handler: Option<string>)

  /** A child of a group: a single query or another group. */
  datatype Child = Leaf(query: Query) | Nested(group: QueryGroup)

  /** InvalidArgumentException("Unknown or invalid boolean operator: ..."). */
  datatype QueryError = InvalidArgument(operator: string)

  /** The accepted boolean operators, in the order the source lists them. */
  const Operators: seq<string> := ["AND", "OR", "NOT"]

  /** The operator and negation flag (None: PHP's null) that `setOperator(op)` leaves
      behind, starting from `operator` and `negation`, or the error it throws. */
  function OperatorAfter(op: string, operator: string, negation: Option<bool>): (r: Result<(string, Option<bool>), QueryError>)
    ensures r.Failure? <==> op !in Operators
    ensures r.Failure? ==> r.error == InvalidArgument(op)
    ensures r.Success? ==> r.value.0 == "AND" || r.value.0 == "OR"
    ensures op == "NOT" ==> r == Success(("OR", Some(true)))
    ensures (op == "AND" || op == "OR") ==> r == Success((op, negation))
  {
    if op !in Operators then Failure(InvalidArgument(op))
    else if op == "NOT" then Success(("OR", Some(true)))
    else Success((op, negation))
  }

  /** Setting the same operator twice has the effect of setting it once. */
  lemma SetOperatorIdempotent(op: string, operator: string, negation: Option<bool>)
    requires OperatorAfter(op, operator, negation).Success?
    ensures var s := OperatorAfter(op, operator, negation).value;
            OperatorAfter(op, s.0, s.1) == Success(s)
  {
  }

  class QueryGroup {
    /** The boolean operator; "" stands for PHP's null before the first `setOperator`. */
    var operator: string
    /** Whether the group is an exclusion group; None is null, which only NOT replaces. */
    var negation: Option<bool>
    /** The children; None is null, which the first `addQuery` replaces by a list. */
    var queries: Option<seq<Child>>
    /** The handler used if the group is reduced to a single query; None is null. */
    var reducedHandler: Option<string>

    /** The group invariant: the stored operator is AND or OR, never NOT. */
    ghost predicate Valid()
      reads this
    {
      operator == "AND" || operator == "OR"
    }

    /** The object as PHP allocates it, before the constructor body runs. */
    constructor Blank()
      ensures operator == "" && negation == None && queries == None && reducedHandler == None
    {
      operator, negation, queries, reducedHandler := "", None, None, None;
    }

    /** The children added so far, whether or not the list is still null. */
    function Children(): seq<Child>
      reads this
    {
      queries.GetOr([])
    }

    /** `new QueryGroup($operator, $queries, $reducedHandler)`: sets the operator (which may
        throw), then appends the queries in order, then sets the reduced handler. */
    static method New(operator: string, queries: seq<Child>, reducedHandler: Option<string>)
      returns (r: Result<QueryGroup, QueryError>)
      ensures r.Failure? <==> operator !in Operators
      ensures r.Failure? ==> r.error == InvalidArgument(operator)
      ensures r.Success? ==> fresh(r.value) && r.value.Valid()
      ensures r.Success? ==> r.value.operator == (if operator == "NOT" then "OR" else operator)
      ensures r.Success? ==> r.value.negation == (if operator == "NOT" then Some(true) else None)
      ensures r.Success? ==> r.value.queries == (if queries == [] then None else Some(queries))
      ensures r.Success? ==> r.value.reducedHandler == reducedHandler
    {
      var g := new QueryGroup.Blank();
      var err := g.SetOperator(operator);
      if err.Some? {
        return Failure(err.value);
      }
      assert [] + queries == queries;
      g.SetQueries(queries);
      g.SetReducedHandler(reducedHandler);
      return Success(g);
    }

    /** `setOperator`: an unknown operator throws and changes nothing; NOT becomes OR with
        negation set; AND and OR are stored as given and leave negation alone. */
    method SetOperator(op: string) returns (err: Option<QueryError>)
      modifies this`operator, this`negation
      ensures match OperatorAfter(op, old(operator), old(negation))
              case Failure(e) => err == Some(e) && operator == old(operator) && negation == old(negation)
              case Success(s) => err == None && operator == s.0 && negation == s.1
      ensures old(Valid()) ==> Valid()
    {
      if op !in Operators {
        return Some(InvalidArgument(op));
      }
      if op == "NOT" {
        operator := "OR";
        negation := Some(true);
      } else {
        operator := op;
      }
      return None;
    }

    /** `addQuery`: appends one child at the end; on a null list, PHP's `[]=` first
        creates an empty one. */
    method AddQuery(q: Child)
      modifies this`queries
      ensures queries == Some(old(Children()) + [q])
    {
      queries := Some(Children() + [q]);
    }

    /** `setQueries`: appends every given child, in order, after the existing ones
        (it does not replace them). */
    method SetQueries(qs: seq<Child>)
      modifies this`queries
      ensures queries == if qs == [] then old(queries) else Some(old(Children()) + qs)
    {
      for i := 0 to |qs|
        invariant queries == if i == 0 then old(queries) else Some(old(Children()) + qs[..i])
      {
        ghost var before := Children();
        assert before == old(Children()) + qs[..i];
        AddQuery(qs[i]);
        assert queries == Some(before + [qs[i]]);
        assert qs[..i + 1] == qs[..i] + [qs[i]];
        assert before + [qs[i]] == old(Children()) + qs[..i + 1];
      }
      assert qs[..|qs|] == qs;
    }

    method SetReducedHandler(handler: Option<string>)
      modifies this`reducedHandler
      ensures reducedHandler == handler
    {
      reducedHandler := handler;
    }

    method UnsetReducedHandler()
      modifies this`reducedHandler
      ensures reducedHandler == None
    {
      reducedHandler := None;
    }
  }

  /** A client of the specifications above: a NOT group over two queries, then one more. */
  method NegatedGroupExample(a: Query, b: Query, c: Query)
  {
    var r := QueryGroup.New("NOT", [Leaf(a), Leaf(b)], None);
    assert r.Success?;
    var g := r.value;
    assert g.operator == "OR" && g.negation == Some(true);
    g.AddQuery(Leaf(c));
    assert [Leaf(a), Leaf(b)] + [Leaf(c)] == [Leaf(a), Leaf(b), Leaf(c)];
    assert g.queries == Some([Leaf(a), Leaf(b), Leaf(c)]);
    var empty := QueryGroup.New("AND", [], None);
    assert empty.Success? && empty.value.queries == None && empty.value.negation == None;
    var bad := QueryGroup.New("XOR", [], None);
    assert bad == Failure(InvalidArgument("XOR"));
  }
}
