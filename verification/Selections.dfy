/** Picking elements of a sequence in order, told by the positions picked. */
module Selections {

  predicate Increasing(positions: seq<nat>) {
    forall i, j :: 0 <= i < j < |positions| ==> positions[i] < positions[j]
  }

  /** `ys` has, in order, one element for each element of `xs` that is kept, and it is an image of that element. */
  ghost predicate Selects<T(!new), U(!new)>(xs: seq<T>, keep: T -> bool, ys: seq<U>, image: (T, U) -> bool) {
    exists positions: seq<nat> :: SelectsAt(xs, keep, ys, image, positions)
  }

  ghost predicate SelectsAt<T(!new), U(!new)>(
    xs: seq<T>, keep: T -> bool, ys: seq<U>, image: (T, U) -> bool, positions: seq<nat>)
  {
    && |positions| == |ys|
    && Increasing(positions)
    && KeptPositions(xs, keep, positions)
    && forall k :: 0 <= k < |ys| ==> image(xs[positions[k]], ys[k])
  }

  ghost predicate KeptPositions<T(!new)>(xs: seq<T>, keep: T -> bool, positions: seq<nat>) {
    && (forall k :: 0 <= k < |positions| ==> positions[k] < |xs| && keep(xs[positions[k]]))
    && (forall i :: 0 <= i < |xs| && keep(xs[i]) ==> i in positions)
  }

  lemma SelectsNothing<T(!new), U(!new)>(keep: T -> bool, image: (T, U) -> bool)
    ensures Selects<T, U>([], keep, [], image)
  {
    assert SelectsAt<T, U>([], keep, [], image, []);
  }

  lemma KeptMore<T(!new)>(xs: seq<T>, keep: T -> bool, positions: seq<nat>, x: T)
    requires Increasing(positions) && KeptPositions(xs, keep, positions)
    ensures var longer := if keep(x) then positions + [|xs|] else positions;
            Increasing(longer) && KeptPositions(xs + [x], keep, longer)
  {
    var longer := if keep(x) then positions + [|xs|] else positions;
    forall i | 0 <= i < |xs + [x]| && keep((xs + [x])[i])
      ensures i in longer
    {
      if i < |xs| {
        assert i in positions;
      } else {
        assert longer[|positions|] == i;
      }
    }
  }

  lemma SelectsMore<T(!new), U(!new)>(
    xs: seq<T>, keep: T -> bool, ys: seq<U>, image: (T, U) -> bool, x: T, more: seq<U>)
    requires Selects(xs, keep, ys, image)
    requires if keep(x) then |more| == 1 && image(x, more[0]) else more == []
    ensures Selects(xs + [x], keep, ys + more, image)
  {
    var positions: seq<nat> :| SelectsAt(xs, keep, ys, image, positions);
    var longer := if keep(x) then positions + [|xs|] else positions;
    KeptMore(xs, keep, positions, x);
    forall k | 0 <= k < |ys + more|
      ensures image((xs + [x])[longer[k]], (ys + more)[k])
    {
      if k < |ys| {
        assert positions[k] == longer[k];
      }
    }
    assert SelectsAt(xs + [x], keep, ys + more, image, longer);
  }

  /** Everything selected comes from something kept. */
  lemma SelectedComesFrom<T(!new), U(!new)>(xs: seq<T>, keep: T -> bool, ys: seq<U>, image: (T, U) -> bool, y: U)
    returns (x: T)
    requires Selects(xs, keep, ys, image) && y in ys
    ensures x in xs && keep(x) && image(x, y)
  {
    var positions: seq<nat> :| SelectsAt(xs, keep, ys, image, positions);
    var k :| 0 <= k < |ys| && ys[k] == y;
    x := xs[positions[k]];
  }

  /** Everything kept is selected. */
  lemma KeptIsSelected<T(!new), U(!new)>(xs: seq<T>, keep: T -> bool, ys: seq<U>, image: (T, U) -> bool, x: T)
    returns (y: U)
    requires Selects(xs, keep, ys, image) && x in xs && keep(x)
    ensures y in ys && image(x, y)
  {
    var positions: seq<nat> :| SelectsAt(xs, keep, ys, image, positions);
    var i :| 0 <= i < |xs| && xs[i] == x;
    assert i in positions;
    var k :| 0 <= k < |positions| && positions[k] == i;
    y := ys[k];
  }
}
