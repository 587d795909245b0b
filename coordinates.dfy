/**
 * `check_coordinates`: the two accepted shapes of a pose argument — nested
 * [[x, y, z], [q1, q2, q3, q4]] or flat [x, y, z, q1, q2, q3, q4] — and the
 * canonical nested value both normalise to.
 */
module Coordinates {
  import opened Wrappers
  import opened Exceptions

  /** A Python value as a pose argument holds it: a number or a list of values. */
  datatype Value = Num(x: real) | List(items: seq<Value>)

  /** The canonical shape: a list of a 3-element list and a 4-element list. */
  predicate IsNested(c: Value) {
    c.List? && |c.items| == 2
    && c.items[0].List? && |c.items[0].items| == 3
    && c.items[1].List? && |c.items[1].items| == 4
  }

  predicate IsFlat(c: Value) {
    c.List? && |c.items| == 7
  }

  /**
   * Where Python's `len()` meets a number before the shape is decided: on the argument
   * itself, on its first element when it has two, or on its second when the first has three.
   */
  predicate LenOfNumber(c: Value) {
    c.Num?
    || (|c.items| == 2 && c.items[0].Num?)
    || (|c.items| == 2 && |c.items[0].items| == 3 && c.items[1].Num?)
  }

  function CheckCoordinates(c: Value): (r: Result<Value, Exception>)
    ensures IsNested(c) ==> r == Ok(c)
    ensures IsFlat(c) ==> r == Ok(List([List(c.items[..3]), List(c.items[3..])]))
    ensures r.Ok? <==> IsNested(c) || IsFlat(c)
    ensures r.Ok? ==> IsNested(r.value)
    ensures r.Err? ==> r.error == if LenOfNumber(c) then TypeError else MalformedCoordinate
  {
    if c.Num? then Err(TypeError)
    else if |c.items| == 2 && c.items[0].Num? then Err(TypeError)
    else if |c.items| == 2 && |c.items[0].items| == 3 && c.items[1].Num? then Err(TypeError)
    else if IsNested(c) then Ok(c)
    else if |c.items| == 7 then Ok(List([List(c.items[..3]), List(c.items[3..])]))
    else Err(MalformedCoordinate)
  }

  /** Normalising an already normalised pose changes nothing. */
  lemma CheckCoordinatesIdempotent(c: Value)
    requires CheckCoordinates(c).Ok?
    ensures CheckCoordinates(CheckCoordinates(c).value) == CheckCoordinates(c)
  {
  }

  /** The flat and the nested spelling of the same seven values normalise to the same pose. */
  lemma ShapesAgree(position: seq<Value>, orientation: seq<Value>)
    requires |position| == 3 && |orientation| == 4
    ensures CheckCoordinates(List(position + orientation))
            == CheckCoordinates(List([List(position), List(orientation)]))
            == Ok(List([List(position), List(orientation)]))
  {
    var flat := position + orientation;
    assert flat[..3] == position && flat[3..] == orientation;
  }

  predicate AllNumbers(vs: seq<Value>) {
    forall i :: 0 <= i < |vs| ==> vs[i].Num?
  }

  function Numbers(vs: seq<Value>): (xs: seq<real>)
    requires AllNumbers(vs)
    ensures |xs| == |vs| && forall i :: 0 <= i < |vs| ==> xs[i] == vs[i].x
  {
    seq(|vs|, i requires 0 <= i < |vs| => vs[i].x)
  }

  /**
   * The position and the orientation of a pose argument: a shape error from
   * `check_coordinates`, or the TypeError that formatting a non-number raises.
   */
  function PoseNumbers(c: Value): (r: Result<(seq<real>, seq<real>), Exception>)
    ensures r.Ok? ==> |r.value.0| == 3 && |r.value.1| == 4
    ensures r.Ok? ==> CheckCoordinates(c) == Ok(List([List(ToValues(r.value.0)), List(ToValues(r.value.1))]))
    ensures CheckCoordinates(c).Err? ==> r == Err(CheckCoordinates(c).error)
  {
    match CheckCoordinates(c)
    case Err(e) => Err(e)
    case Ok(n) =>
      var position, orientation := n.items[0].items, n.items[1].items;
      if AllNumbers(position) && AllNumbers(orientation) then
        assert ToValues(Numbers(position)) == position;
        assert ToValues(Numbers(orientation)) == orientation;
        assert n.items == [List(position), List(orientation)];
        Ok((Numbers(position), Numbers(orientation)))
      else Err(TypeError)
  }

  /**
   * A well-shaped pose yields its numbers exactly when every entry of its position and of its
   * orientation is a number; otherwise formatting the first entry that is not raises TypeError.
   */
  lemma PoseNumbersSucceeds(c: Value)
    requires CheckCoordinates(c).Ok?
    ensures var n := CheckCoordinates(c).value;
      PoseNumbers(c).Ok? <==> AllNumbers(n.items[0].items) && AllNumbers(n.items[1].items)
    ensures PoseNumbers(c).Err? ==> PoseNumbers(c).error == TypeError
  {
  }

  function ToValues(xs: seq<real>): (vs: seq<Value>)
    ensures |vs| == |xs| && forall i :: 0 <= i < |xs| ==> vs[i] == Num(xs[i])
  {
    seq(|xs|, i requires 0 <= i < |xs| => Num(xs[i]))
  }
}
