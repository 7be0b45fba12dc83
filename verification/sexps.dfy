/**
 The slice of R's value model (SEXP) that S4 primitive dispatch touches:
 interned symbols, attribute pairlists, closures and the `length` of a value.
 */
module Sexps {

  datatype Option<+T> = None | Some(value: T)

  /** An interned R symbol: two symbols are the same object exactly when their names agree. */
  datatype Symbol = Symbol(name: string)

  /** An R value. Only the shapes dispatch inspects are distinguished. */
  datatype Sexp =
    | Null
    | Sym(symbol: Symbol)
    | StringVector(elements: seq<string>, attributes: seq<Attr>)
    | ListVector(items: seq<Sexp>, attributes: seq<Attr>)
    | Fn(closure: Closure)

  /** One node of an attribute pairlist: a tag and the value stored under it. */
  datatype Attr = Attr(tag: Symbol, value: Sexp)

  /** One node of an argument pairlist: the argument's name, if it was given one, and its value. */
  datatype Arg = Arg(name: Option<Symbol>, value: Sexp)

  /** A closure: formals, body and the attributes attached to the function object. */
  datatype Closure = Closure(formals: seq<Symbol>, body: Sexp, attributes: seq<Attr>)

  /** R's `length()`: 0 for NULL, 1 for a symbol or a function, the element count for a vector. */
  function Length(x: Sexp): nat
  {
    match x
    case Null => 0
    case Sym(_) => 1
    case StringVector(es, _) => |es|
    case ListVector(xs, _) => |xs|
    case Fn(_) => 1
  }

  /** The attribute pairlist of a value; NULL and symbols carry none. */
  function Attributes(x: Sexp): seq<Attr>
  {
    match x
    case Null => []
    case Sym(_) => []
    case StringVector(_, a) => a
    case ListVector(_, a) => a
    case Fn(c) => c.attributes
  }

  /** Node `i` of `attrs` carries `tag`. */
  ghost predicate Tagged(attrs: seq<Attr>, tag: Symbol, i: int)
  {
    0 <= i < |attrs| && attrs[i].tag == tag
  }

  /** Node `i` is the first node of `attrs` carrying `tag`. */
  ghost predicate FirstTagged(attrs: seq<Attr>, tag: Symbol, i: int)
  {
    Tagged(attrs, tag, i) && forall j :: 0 <= j < i ==> attrs[j].tag != tag
  }

  /** Node `i` is the last node of `attrs` carrying `tag`. */
  ghost predicate LastTagged(attrs: seq<Attr>, tag: Symbol, i: int)
  {
    Tagged(attrs, tag, i) && forall j :: i < j < |attrs| ==> attrs[j].tag != tag
  }

  /**
   `getAttribute(name)`: the value stored under `name`, or NULL when no node
   carries that tag.
   */
  function GetAttribute(attrs: seq<Attr>, name: Symbol): (r: Sexp)
    ensures !(exists i :: Tagged(attrs, name, i)) ==> r == Null
    ensures forall i :: FirstTagged(attrs, name, i) ==> r == attrs[i].value
    decreases |attrs|
  {
    if attrs == [] then Null
    else if attrs[0].tag == name then
      assert Tagged(attrs, name, 0);
      attrs[0].value
    else
      FirstTaggedShifts(attrs, name);
      GetAttribute(attrs[1..], name)
  }

  /** Dropping a head node that does not carry `tag` shifts every tagged index down by one. */
  lemma FirstTaggedShifts(attrs: seq<Attr>, tag: Symbol)
    requires |attrs| > 0 && attrs[0].tag != tag
    ensures forall i :: FirstTagged(attrs, tag, i) ==> FirstTagged(attrs[1..], tag, i - 1)
    ensures (exists i :: Tagged(attrs, tag, i)) <==> exists k :: Tagged(attrs[1..], tag, k)
  {
    forall i | FirstTagged(attrs, tag, i)
      ensures FirstTagged(attrs[1..], tag, i - 1)
    {
      assert i > 0;
      forall j | 0 <= j < i - 1
        ensures attrs[1..][j].tag != tag
      {
        assert attrs[1..][j] == attrs[j + 1];
      }
    }
    if i :| Tagged(attrs, tag, i) {
      assert Tagged(attrs[1..], tag, i - 1);
    }
    if k :| Tagged(attrs[1..], tag, k) {
      assert Tagged(attrs, tag, k + 1);
    }
  }

  /** Every tag that occurs in `attrs` has a first occurrence. */
  lemma {:induction false} FirstOccurrenceExists(attrs: seq<Attr>, tag: Symbol, i: int)
    requires Tagged(attrs, tag, i)
    ensures exists k :: FirstTagged(attrs, tag, k)
    decreases i
  {
    if forall j :: 0 <= j < i ==> attrs[j].tag != tag {
      assert FirstTagged(attrs, tag, i);
    } else {
      var j :| 0 <= j < i && attrs[j].tag == tag;
      FirstOccurrenceExists(attrs, tag, j);
    }
  }

  /** A tag that occurs in `attrs` at all has a first occurrence. */
  lemma TaggedHasFirst(attrs: seq<Attr>, tag: Symbol)
    ensures (exists i :: Tagged(attrs, tag, i)) ==> exists k :: FirstTagged(attrs, tag, k)
  {
    if i :| Tagged(attrs, tag, i) {
      FirstOccurrenceExists(attrs, tag, i);
    }
  }
}
