/**
 * Filters (util.Filter, util.Filters) and the filter() helper of their
 * unit test.
 *
 * A filter accepts or rejects a value.  A Filters object is itself a filter:
 * it holds a list of filters and an accepting function that decides from
 * that list whether a value is accepted.  The three predefined accepting
 * functions, Filters::$ALL, $ANY and $NONE, accept a value when all, any or
 * none of the filters do; allOf(), anyOf() and noneOf() build a Filters
 * object with one of them.
 */
module Filters {
  import opened Wrappers

  datatype Filter<!T> = Filter(accept: T -> bool)

  /** An accepting function: one of the predefined ones, or any other closure. */
  datatype Acceptor<!T> = All | Any | None_ | Closure(f: (seq<Filter<T>>, T) -> bool)

  /** What the constructor's accepting argument is: null, a closure, or a value of another type. */
  datatype Argument<!T> = NullArgument | ClosureArgument(acceptor: Acceptor<T>) | OtherArgument(typeName: string)

  datatype Exception = IllegalArgumentException | NullPointerException

  /** Filters::$ALL: asks the filters in order and stops at the first that rejects. */
  function AllAccept<T>(list: seq<Filter<T>>, e: T): (r: bool)
    ensures r <==> forall k :: 0 <= k < |list| ==> list[k].accept(e)
    decreases |list|
  {
    if list == [] then true
    else if !list[0].accept(e) then false
    else AllAccept(list[1..], e)
  }

  /** Filters::$ANY: asks the filters in order and stops at the first that accepts. */
  function AnyAccepts<T>(list: seq<Filter<T>>, e: T): (r: bool)
    ensures r <==> exists k :: 0 <= k < |list| && list[k].accept(e)
    decreases |list|
  {
    if list == [] then false
    else if list[0].accept(e) then true
    else
      var r := AnyAccepts(list[1..], e);
      assert r ==> exists k :: 0 <= k < |list| && list[k].accept(e) by {
        if r {
          var k :| 0 <= k < |list[1..]| && list[1..][k].accept(e);
          assert list[k + 1] == list[1..][k];
        }
      }
      r
  }

  /** Filters::$NONE: asks the filters in order and stops at the first that accepts. */
  function NoneAccepts<T>(list: seq<Filter<T>>, e: T): (r: bool)
    ensures r <==> forall k :: 0 <= k < |list| ==> !list[k].accept(e)
    decreases |list|
  {
    if list == [] then true
    else if list[0].accept(e) then false
    else NoneAccepts(list[1..], e)
  }

  /** Rejected by none is the opposite of accepted by any. */
  lemma NoneIsNotAny<T>(list: seq<Filter<T>>, e: T)
    ensures NoneAccepts(list, e) == !AnyAccepts(list, e)
  {
  }

  /**
   * Whether an accepting function accepts a value, given the filters: $ALL
   * when every filter does, $ANY when one does, $NONE when none does, and a
   * closure when it returns true for the filters and the value.
   */
  function Accepts<T>(a: Acceptor<T>, list: seq<Filter<T>>, e: T): (r: bool)
    ensures a.All? ==> (r <==> forall k :: 0 <= k < |list| ==> list[k].accept(e))
    ensures a.Any? ==> (r <==> exists k :: 0 <= k < |list| && list[k].accept(e))
    ensures a.None_? ==> (r <==> forall k :: 0 <= k < |list| ==> !list[k].accept(e))
    ensures a.Closure? ==> r == a.f(list, e)
  {
    match a
    case All => AllAccept(list, e)
    case Any => AnyAccepts(list, e)
    case None_ => NoneAccepts(list, e)
    case Closure(f) => f(list, e)
  }

  /** A filter added to a list joins the others: all accept when the old ones and the new one do. */
  lemma AddedFilterTakesPart<T>(list: seq<Filter<T>>, f: Filter<T>, e: T)
    ensures AllAccept(list + [f], e) == (AllAccept(list, e) && f.accept(e))
    ensures AnyAccepts(list + [f], e) == (AnyAccepts(list, e) || f.accept(e))
    ensures NoneAccepts(list + [f], e) == (NoneAccepts(list, e) && !f.accept(e))
  {
    var l := list + [f];
    assert l[|list|] == f;
    assert forall k :: 0 <= k < |list| ==> l[k] == list[k];
    if AnyAccepts(list, e) {
      var k :| 0 <= k < |list| && list[k].accept(e);
      assert l[k].accept(e);
    }
  }

  class Filters<T> {
    var list: seq<Filter<T>>
    var accepting: Option<Acceptor<T>>

    constructor (list: seq<Filter<T>>, accepting: Option<Acceptor<T>>)
      ensures this.list == list && this.accepting == accepting
    {
      this.list := list;
      this.accepting := accepting;
    }

    /** add(): appends a filter; returns this object. */
    method Add(f: Filter<T>) returns (self: Filters<T>)
      modifies this
      ensures list == old(list) + [f] && accepting == old(accepting)
      ensures self == this
    {
      list := list + [f];
      self := this;
    }

    /** accepting(): replaces the accepting function; returns this object. */
    method Accepting(a: Acceptor<T>) returns (self: Filters<T>)
      modifies this
      ensures accepting == Some(a) && list == old(list)
      ensures self == this
    {
      accepting := Some(a);
      self := this;
    }

    /** accept(): what the accepting function says; NullPointerException when there is none. */
    method Accept(e: T) returns (r: Result<bool, Exception>)
      ensures accepting.None? <==> r.Err?
      ensures r.Err? ==> r.error == NullPointerException
      ensures r.Ok? ==> r.value == Accepts(accepting.value, list, e)
    {
      if accepting.None? {
        return Err(NullPointerException);
      }
      return Ok(Accepts(accepting.value, list, e));
    }
  }

  /** new Filters(list, accepting): IllegalArgumentException unless accepting is null or a closure. */
  method Create<T>(list: seq<Filter<T>>, accepting: Argument<T>) returns (r: Result<Filters<T>, Exception>)
    ensures r.Err? <==> accepting.OtherArgument?
    ensures r.Err? ==> r.error == IllegalArgumentException
    ensures r.Ok? ==> fresh(r.value) && r.value.list == list
    ensures r.Ok? ==> r.value.accepting == if accepting.ClosureArgument? then Some(accepting.acceptor) else None
  {
    match accepting
    case NullArgument =>
      var f := new Filters(list, None);
      r := Ok(f);
    case ClosureArgument(a) =>
      var f := new Filters(list, Some(a));
      r := Ok(f);
    case OtherArgument(_) =>
      r := Err(IllegalArgumentException);
  }

  /** allOf(): a Filters object that accepts what all of the filters accept. */
  method AllOf<T>(list: seq<Filter<T>>) returns (f: Filters<T>)
    ensures fresh(f) && f.list == list && f.accepting == Some(All)
  {
    f := new Filters(list, Some(All));
  }

  /** anyOf(): a Filters object that accepts what any of the filters accepts. */
  method AnyOf<T>(list: seq<Filter<T>>) returns (f: Filters<T>)
    ensures fresh(f) && f.list == list && f.accepting == Some(Any)
  {
    f := new Filters(list, Some(Any));
  }

  /** noneOf(): a Filters object that accepts what none of the filters accepts. */
  method NoneOf<T>(list: seq<Filter<T>>) returns (f: Filters<T>)
    ensures fresh(f) && f.list == list && f.accepting == Some(None_)
  {
    f := new Filters(list, Some(None_));
  }

  /** The values a filter accepts, in their original order. */
  function Filtered<T>(input: seq<T>, accept: T -> bool): (r: seq<T>)
    ensures |r| <= |input|
    decreases |input|
  {
    if input == [] then []
    else (if accept(input[0]) then [input[0]] else []) + Filtered(input[1..], accept)
  }

  /** The test's filter() helper: collects the accepted values. */
  method FilterValues<T>(input: seq<T>, filter: Filter<T>) returns (output: seq<T>)
    ensures output == Filtered(input, filter.accept)
  {
    output := [];
    for i := 0 to |input|
      invariant output + Filtered(input[i..], filter.accept) == Filtered(input, filter.accept)
    {
      assert input[i..][1..] == input[i + 1..];
      output := output + if filter.accept(input[i]) then [input[i]] else [];
    }
    assert input[|input|..] == [];
  }

  /** Filtering keeps exactly the accepted values. */
  lemma {:induction false} FilteredMembers<T>(input: seq<T>, accept: T -> bool)
    ensures forall x :: x in Filtered(input, accept) <==> x in input && accept(x)
    decreases |input|
  {
    if input != [] {
      FilteredMembers(input[1..], accept);
      assert input == [input[0]] + input[1..];
    }
  }

  /** Filtering keeps the order: it works piece by piece. */
  lemma {:induction false} FilteredAppend<T>(a: seq<T>, b: seq<T>, accept: T -> bool)
    ensures Filtered(a + b, accept) == Filtered(a, accept) + Filtered(b, accept)
    decreases |a|
  {
    if a == [] {
      assert a + b == b;
    } else {
      FilteredAppend(a[1..], b, accept);
      var head := if accept(a[0]) then [a[0]] else [];
      assert (a + b)[1..] == a[1..] + b;
      assert Filtered(a + b, accept) == head + Filtered(a[1..] + b, accept);
    }
  }

  /** Filtering twice with the same filter changes nothing more. */
  lemma {:induction false} FilteredIdempotent<T>(input: seq<T>, accept: T -> bool)
    ensures Filtered(Filtered(input, accept), accept) == Filtered(input, accept)
    decreases |input|
  {
    if input != [] {
      FilteredIdempotent(input[1..], accept);
      var head := if accept(input[0]) then [input[0]] else [];
      FilteredAppend(head, Filtered(input[1..], accept), accept);
      if accept(input[0]) {
        assert Filtered(head, accept) == [input[0]] + Filtered([], accept);
      }
    }
  }

  // ---------------------------------------------------------------------
  // The unit test

  function GreaterThanOne(): Filter<int> { Filter(e => e > 1) }
  function LessThanFour(): Filter<int> { Filter(e => e < 4) }

  /** A Filters object with an accepting function, as a filter. */
  function AsFilter<T>(a: Acceptor<T>, list: seq<Filter<T>>): Filter<T>
  {
    Filter(e => Accepts(a, list, e))
  }

  /** can_create, can_create_with_empty_filters, can_create_with_empty_acceptor */
  method CanCreate(a: Acceptor<int>) returns (withFilter: Result<Filters<int>, Exception>, empty: Result<Filters<int>, Exception>, noAcceptor: Result<Filters<int>, Exception>)
    ensures withFilter.Ok? && empty.Ok? && noAcceptor.Ok?
  {
    withFilter := Create([GreaterThanOne()], ClosureArgument(a));
    empty := Create([], ClosureArgument(a));
    noAcceptor := Create([GreaterThanOne()], NullArgument);
  }

  /** constructor_raises_exception_when_neither_null_nor_closure_given_for_accepting */
  method ConstructorRejectsString() returns (r: Result<Filters<int>, Exception>)
    ensures r == Err(IllegalArgumentException)
  {
    r := Create([], OtherArgument("string"));
  }

  /** add_filter */
  method AddFilter() returns (r: Result<bool, Exception>)
    ensures r == Ok(true)
  {
    var filters := new Filters([], Some(All));
    var _ := filters.Add(GreaterThanOne());
    r := filters.Accept(2);
    assert filters.list == [GreaterThanOne()];
  }

  /** set_accepting */
  method SetAccepting() returns (r: Result<bool, Exception>)
    ensures r == Ok(true)
  {
    var filters := new Filters([GreaterThanOne()], None);
    var _ := filters.Accepting(All);
    r := filters.Accept(2);
  }

  /** fluent_interface */
  method FluentInterface() returns (r: Result<bool, Exception>)
    ensures r == Ok(true)
  {
    var filters := new Filters([], None);
    var added := filters.Add(GreaterThanOne());
    var chained := added.Accepting(All);
    r := chained.Accept(2);
    assert chained.list == [GreaterThanOne()];
  }

  /** accept_called_without_accepting_function_set */
  method AcceptWithoutAcceptingFunction() returns (r: Result<bool, Exception>)
    ensures r == Err(NullPointerException)
  {
    var filters := new Filters([], None);
    var added := filters.Add(GreaterThanOne());
    r := added.Accept(2);
  }

  /** allOf */
  method FilterAllOf() returns (output: seq<int>)
    ensures output == [2, 3]
  {
    var list := [GreaterThanOne(), LessThanFour()];
    var filters := AllOf(list);
    output := FilterValues([1, 2, 3, 4], AsFilter(filters.accepting.value, filters.list));
    var accept := AsFilter(All, list).accept;
    assert Filtered([4], accept) == [];
    assert Filtered([3, 4], accept) == [3];
    assert Filtered([2, 3, 4], accept) == [2, 3];
    assert [1, 2, 3, 4][1..] == [2, 3, 4];
  }

  /** sub occurs in s at position i. */
  predicate At(s: string, sub: string, i: nat)
  {
    i + |sub| <= |s| && s[i..i + |sub|] == sub
  }

  /** strstr() finds sub in s. */
  predicate Contains(s: string, sub: string)
  {
    exists i: nat | i <= |s| :: At(s, sub, i)
  }

  /** The filters of the anyOf test: one-character strings and strings starting below 'a'. */
  function AnyOfFilters(): seq<Filter<string>>
  {
    [Filter((e: string) => |e| == 1), Filter((e: string) => |e| > 0 && e[0] < 'a')]
  }

  lemma AnyOfVerdicts()
    ensures var accept := AsFilter(Any, AnyOfFilters()).accept;
      accept("Hello") && !accept("test") && !accept("") && accept("World") && accept("!")
  {
    var list := AnyOfFilters();
    assert list[1].accept("Hello") && list[1].accept("World") && list[0].accept("!");
    assert !list[0].accept("test") && !list[1].accept("test");
  }

  /** anyOf */
  method FilterAnyOf() returns (output: seq<string>)
    ensures output == ["Hello", "World", "!"]
  {
    var list := AnyOfFilters();
    var input := ["Hello", "test", "", "World", "!"];
    var filters := AnyOf(list);
    output := FilterValues(input, AsFilter(filters.accepting.value, filters.list));
    var accept := AsFilter(Any, list).accept;
    AnyOfVerdicts();
    assert Filtered(input[4..], accept) == ["!"];
    assert Filtered(input[3..], accept) == ["World", "!"];
    assert Filtered(input[2..], accept) == ["World", "!"];
    assert Filtered(input[1..], accept) == ["World", "!"];
  }

  lemma ContainsExamples()
    ensures Contains("file.txt", ".txt") && Contains("test.php", "test")
    ensures !Contains("index.html", "test") && !Contains("index.html", ".txt")
  {
    assert At("file.txt", ".txt", 4);
    assert At("test.php", "test", 0);
    var s := "index.html";
    forall i: nat | i + 4 <= |s| ensures !At(s, "test", i) && !At(s, ".txt", i) {
      assert s[i..i + 4][0] == s[i] && s[i..i + 4][1] == s[i + 1];
      assert s[i] != 't';
      assert s[i] != '.' || s[i + 1] != 't';
    }
  }

  /** The filters of the noneOf test: strings containing "test" and strings containing ".txt". */
  function NoneOfFilters(): seq<Filter<string>>
  {
    [Filter((e: string) => Contains(e, "test")), Filter((e: string) => Contains(e, ".txt"))]
  }

  lemma NoneOfVerdicts()
    ensures var accept := AsFilter(None_, NoneOfFilters()).accept;
      !accept("file.txt") && accept("index.html") && !accept("test.php")
  {
    var list := NoneOfFilters();
    ContainsExamples();
    assert list[1].accept("file.txt") && list[0].accept("test.php");
    assert !list[0].accept("index.html") && !list[1].accept("index.html");
  }

  /** noneOf */
  method FilterNoneOf() returns (output: seq<string>)
    ensures output == ["index.html"]
  {
    var list := NoneOfFilters();
    var input := ["file.txt", "index.html", "test.php"];
    var filters := NoneOf(list);
    output := FilterValues(input, AsFilter(filters.accepting.value, filters.list));
    var accept := AsFilter(None_, list).accept;
    NoneOfVerdicts();
    assert Filtered(input[2..], accept) == [];
    assert Filtered(input[1..], accept) == ["index.html"];
  }
}
