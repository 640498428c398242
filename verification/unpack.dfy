/** `unpack_neurons` (a recursive, order-preserving flatten of lists of
    neurons and neuron lists) and the one-level flatten at the start of
    `parse_objects`. Neurons are given by their ids. */
module Unpack {

  import opened Errors

  /** What `unpack_neurons` meets: a list (or array or tuple), a single
      neuron, a neuron list, or anything else. */
  datatype Item =
    | ListOf(items: seq<Item>)
    | NeuronItem(id: nat)
    | NeuronListOf(ids: seq<nat>)
    | Other

  /** Whether no unknown object occurs anywhere in `x`. */
  predicate Known(x: Item) {
    match x
    case ListOf(items) => forall i :: 0 <= i < |items| ==> Known(items[i])
    case Other => false
    case _ => true
  }

  /** The neurons in `x`, in order, with unknown objects skipped wherever
      they occur: what unpacking gives when it does not raise. */
  function Neurons(x: Item): seq<nat>
    decreases x
  {
    match x
    case ListOf(items) => NeuronsAll(items)
    case NeuronItem(id) => [id]
    case NeuronListOf(ids) => ids
    case Other => []
  }

  /** The neurons of each member, one member after the other. */
  function NeuronsAll(items: seq<Item>): seq<nat>
    decreases items
  {
    if |items| == 0 then [] else Neurons(items[0]) + NeuronsAll(items[1..])
  }

  /** `unpack_neurons(x, raise_on_error)`: an unknown object raises
      `TypeError` when `raise_on_error` is set and contributes nothing
      otherwise; the members of a list are unpacked with the default, so an
      unknown object inside a list always raises. */
  function Unpack(x: Item, raiseOnError: bool): (r: Result<seq<nat>>)
    ensures r.Err? ==> r.error == TypeError
    ensures x.ListOf? ==> (r.Ok? <==> Known(x))
    ensures r.Ok? <==> Known(x) || (x.Other? && !raiseOnError)
    ensures r.Ok? ==> r.value == Neurons(x)
    ensures x.Other? ==> (r.Ok? <==> !raiseOnError) && (r.Ok? ==> r.value == [])
    ensures x.NeuronItem? ==> r == Ok([x.id])
    ensures x.NeuronListOf? ==> r == Ok(x.ids)
    decreases x
  {
    match x
    case ListOf(items) => UnpackAll(items)
    case NeuronItem(id) => Ok([id])
    case NeuronListOf(ids) => Ok(ids)
    case Other => if raiseOnError then Err(TypeError) else Ok([])
  }

  /** The loop over the members of a list, each unpacked with
      `raise_on_error=True`, their neurons concatenated in order. */
  function UnpackAll(items: seq<Item>): (r: Result<seq<nat>>)
    ensures r.Err? ==> r.error == TypeError
    ensures r.Ok? <==> forall i :: 0 <= i < |items| ==> Known(items[i])
    ensures r.Ok? ==> r.value == NeuronsAll(items)
    decreases items
  {
    if |items| == 0 then Ok([])
    else
      var head :- Unpack(items[0], true);
      var rest :- UnpackAll(items[1..]);
      assert forall i :: 1 <= i < |items| ==> items[i] == items[1..][i - 1];
      Ok(head + rest)
  }

  /** Unpacking the concatenation of two lists gives the concatenation of
      their neurons, in order; it raises exactly when one of them does. */
  lemma {:induction false} UnpackAllConcat(a: seq<Item>, b: seq<Item>)
    ensures UnpackAll(a + b).Ok? <==> UnpackAll(a).Ok? && UnpackAll(b).Ok?
    ensures UnpackAll(a + b).Ok? ==> UnpackAll(a + b).value == UnpackAll(a).value + UnpackAll(b).value
    decreases |a|
  {
    if |a| == 0 {
      assert a + b == b;
    } else {
      assert (a + b)[0] == a[0];
      assert (a + b)[1..] == a[1..] + b;
      UnpackAllConcat(a[1..], b);
      if UnpackAll(a + b).Ok? {
        assert UnpackAll(a).value == Unpack(a[0], true).value + UnpackAll(a[1..]).value;
      }
    }
  }

  /** A list of one member unpacks as that member does with
      `raise_on_error=True`; with `UnpackAllConcat` this fixes what every
      list unpacks to. */
  lemma UnpackAllSingle(x: Item)
    ensures UnpackAll([x]) == Unpack(x, true)
  {
    assert [x][1..] == [];
    var r := Unpack(x, true);
    if r.Ok? {
      assert r.value + [] == r.value;
    }
  }

  /** Wrapping a list in another list changes nothing: nesting is
      flattened whatever its depth. */
  lemma UnpackNested(items: seq<Item>, raiseOnError: bool)
    ensures Unpack(ListOf([ListOf(items)]), raiseOnError) == Unpack(ListOf(items), raiseOnError)
  {
    UnpackAllSingle(ListOf(items));
  }

  /** Unpacking a list of two lists is unpacking each, one after the other. */
  lemma UnpackConcat(a: seq<Item>, b: seq<Item>, raiseOnError: bool)
    ensures var r := Unpack(ListOf(a + b), raiseOnError);
            && (r.Ok? <==> Unpack(ListOf(a), raiseOnError).Ok? && Unpack(ListOf(b), raiseOnError).Ok?)
            && (r.Ok? ==> r.value == Unpack(ListOf(a), raiseOnError).value + Unpack(ListOf(b), raiseOnError).value)
  {
    UnpackAllConcat(a, b);
  }

  /** Unpacking a list holding the same neuron list twice gives its neurons
      twice, in order: three neurons give six. */
  lemma UnpackListTwice(ids: seq<nat>, raiseOnError: bool)
    ensures Unpack(ListOf([NeuronListOf(ids), NeuronListOf(ids)]), raiseOnError) == Ok(ids + ids)
    ensures |ids| == 3 ==> |Unpack(ListOf([NeuronListOf(ids), NeuronListOf(ids)]), raiseOnError).value| == 6
  {
    var items := [NeuronListOf(ids), NeuronListOf(ids)];
    assert items[1..] == [NeuronListOf(ids)];
    assert items[1..][1..] == [];
    assert UnpackAll(items[1..]) == Ok(ids + []) by {
      assert UnpackAll(items[1..][1..]) == Ok([]);
    }
    assert ids + [] == ids;
  }

  /** A list of single neurons unpacks to their ids. */
  lemma {:induction false} UnpackAllNeurons(ids: seq<nat>)
    ensures UnpackAll(seq(|ids|, i requires 0 <= i < |ids| => NeuronItem(ids[i]))) == Ok(ids)
    decreases |ids|
  {
    var items := seq(|ids|, i requires 0 <= i < |ids| => NeuronItem(ids[i]));
    if |ids| > 0 {
      assert items[1..] == seq(|ids[1..]|, i requires 0 <= i < |ids[1..]| => NeuronItem(ids[1..][i]));
      UnpackAllNeurons(ids[1..]);
      assert ids == [ids[0]] + ids[1..];
    }
  }

  /** Unpacking is idempotent: the list of neurons it returns unpacks to
      itself. */
  lemma UnpackIdempotent(x: Item, raiseOnError: bool)
    requires Unpack(x, raiseOnError).Ok?
    ensures var ids := Unpack(x, raiseOnError).value;
            Unpack(ListOf(seq(|ids|, i requires 0 <= i < |ids| => NeuronItem(ids[i]))), raiseOnError) == Ok(ids)
  {
    UnpackAllNeurons(Unpack(x, raiseOnError).value);
  }

  /** `raise_on_error=False` spares an unknown object only at the top level:
      inside a list it raises all the same. */
  lemma NestedUnknownRaises(items: seq<Item>, k: nat)
    requires k < |items| && items[k].Other?
    ensures Unpack(Other, false) == Ok([])
    ensures Unpack(ListOf(items), false) == Err(TypeError)
  {
    assert !Known(items[k]);
  }

  /** What `parse_objects` meets: a list, or any other object (told apart
      by a tag so that order is visible). */
  datatype Obj = ListObj(objs: seq<Obj>) | Thing(tag: nat)

  /** What one member contributes to the one-level flatten. */
  function Pieces(o: Obj): seq<Obj>
  {
    if o.ListObj? then o.objs else [o]
  }

  /** The flatten loop: a member that is a list contributes its members,
      any other member contributes itself. */
  function FlattenOnce(xs: seq<Obj>): seq<Obj>
  {
    if |xs| == 0 then [] else Pieces(xs[0]) + FlattenOnce(xs[1..])
  }

  /** The object list `parse_objects` goes on to sort: a non-list is wrapped
      in a list, and when some member is a list, one level of nesting is
      flattened. */
  function ParseObjects(x: Obj): (r: seq<Obj>)
    ensures !x.ListObj? ==> r == [x]
    ensures x.ListObj? && (forall i :: 0 <= i < |x.objs| ==> !x.objs[i].ListObj?) ==> r == x.objs
  {
    var xs := Pieces(x);
    if HasList(xs) then FlattenOnce(xs) else xs
  }

  /** Whether some member is a list. */
  predicate HasList(xs: seq<Obj>) {
    exists i :: 0 <= i < |xs| && xs[i].ListObj?
  }

  /** Flattening distributes over concatenation, so it keeps the order of
      the members and of the members of each list. */
  lemma {:induction false} FlattenOnceConcat(a: seq<Obj>, b: seq<Obj>)
    ensures FlattenOnce(a + b) == FlattenOnce(a) + FlattenOnce(b)
    decreases |a|
  {
    if |a| == 0 {
      assert a + b == b;
    } else {
      assert (a + b)[0] == a[0];
      assert (a + b)[1..] == a[1..] + b;
      FlattenOnceConcat(a[1..], b);
    }
  }

  /** Flattening a list without lists leaves it unchanged. */
  lemma {:induction false} FlattenOnceNoLists(xs: seq<Obj>)
    requires forall i :: 0 <= i < |xs| ==> !xs[i].ListObj?
    ensures FlattenOnce(xs) == xs
    decreases |xs|
  {
    if |xs| > 0 {
      FlattenOnceNoLists(xs[1..]);
      assert xs == [xs[0]] + xs[1..];
    }
  }

  /** The `any(...)` test only saves work: `parse_objects` always flattens
      exactly one level. */
  lemma ParseObjectsFlattens(x: Obj)
    ensures ParseObjects(x) == FlattenOnce(Pieces(x))
  {
    var xs := Pieces(x);
    if !HasList(xs) {
      assert forall i :: 0 <= i < |xs| ==> !xs[i].ListObj?;
      FlattenOnceNoLists(xs);
      assert ParseObjects(x) == xs;
    } else {
      assert ParseObjects(x) == FlattenOnce(xs);
    }
  }

  /** Members of nested lists come out in place, in order:
      `[[a, b], c]` gives `[a, b, c]`. */
  lemma ParseObjectsNested(a: Obj, b: Obj, c: Obj)
    requires !a.ListObj? && !b.ListObj? && !c.ListObj?
    ensures ParseObjects(ListObj([ListObj([a, b]), c])) == [a, b, c]
  {
    var xs := [ListObj([a, b]), c];
    assert xs[0].ListObj?;
    assert xs[1..] == [c];
    assert FlattenOnce([c]) == [c] + FlattenOnce([]) by {
      assert [c][1..] == [];
    }
    assert FlattenOnce(xs) == [a, b] + FlattenOnce([c]);
    assert HasList(xs);
  }
}
