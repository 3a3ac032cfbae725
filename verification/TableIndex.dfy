/** The index arrays of a table when rows are taken out: what _fnDeleteIndex does to them and
    what that means in terms of the rows as they were numbered before. */
module TableIndex {
  import opened Seqs

  /** Indexes above the deleted one move down by one. */
  function Renumber(x: nat, target: nat): nat {
    if x > target then x - 1 else x
  }

  function NotIn(removed: set<nat>): nat -> bool {
    x => x !in removed
  }

  /** The array without `target`, renumbered. */
  function Without(a: seq<nat>, target: nat): (r: seq<nat>)
    ensures |r| <= |a|
  {
    if a == [] then []
    else
      var front := Without(a[..|a| - 1], target);
      if a[|a| - 1] == target then front else front + [Renumber(a[|a| - 1], target)]
  }

  /** The array renumbered, with `target` left in it. */
  function Renumbered(a: seq<nat>, target: nat): (r: seq<nat>)
    ensures |r| == |a| && forall i :: 0 <= i < |a| ==> r[i] == Renumber(a[i], target)
  {
    seq(|a|, i requires 0 <= i < |a| => Renumber(a[i], target))
  }

  lemma {:induction false} WithoutAppend(a: seq<nat>, b: seq<nat>, target: nat)
    ensures Without(a + b, target) == Without(a, target) + Without(b, target)
  {
    if b == [] {
      assert a + b == a;
    } else {
      assert (a + b)[..|a + b| - 1] == a + b[..|b| - 1];
      WithoutAppend(a, b[..|b| - 1], target);
    }
  }

  lemma {:induction false} WithoutAbsent(a: seq<nat>, target: nat)
    requires target !in a
    ensures Without(a, target) == Renumbered(a, target)
  {
    if a != [] {
      WithoutAbsent(a[..|a| - 1], target);
      assert Renumbered(a, target) == Renumbered(a[..|a| - 1], target) + [Renumber(a[|a| - 1], target)];
    }
  }

  /** _fnDeleteIndex: one pass that renumbers in place and remembers where the target stood;
      the target is spliced out unless the caller asks to keep it. */
  method DeleteIndex(a: seq<nat>, target: nat, keep: bool) returns (r: seq<nat>)
    requires Seqs.Distinct(a)
    ensures r == if keep then Renumbered(a, target) else Without(a, target)
  {
    var targetIndex := -1;
    r := a;
    var i := 0;
    while i < |a|
      invariant 0 <= i <= |a| == |r|
      invariant forall k :: 0 <= k < |a| ==> r[k] == if k < i then Renumber(a[k], target) else a[k]
      invariant targetIndex == -1 ==> forall k :: 0 <= k < i ==> a[k] != target
      invariant targetIndex != -1 ==> 0 <= targetIndex < i && a[targetIndex] == target
    {
      if r[i] == target {
        targetIndex := i;
      } else if r[i] > target {
        r := r[i := r[i] - 1];
      }
      i := i + 1;
    }
    assert r == Renumbered(a, target);
    if targetIndex != -1 && !keep {
      SpliceTarget(a, target, targetIndex);
      r := r[..targetIndex] + r[targetIndex + 1..];
    } else if !keep {
      WithoutAbsent(a, target);
    }
  }

  lemma WithoutAround(front: seq<nat>, target: nat, back: seq<nat>)
    requires target !in front && target !in back
    ensures Without(front + [target] + back, target) == Renumbered(front, target) + Renumbered(back, target)
  {
    WithoutAbsent(front, target);
    WithoutAbsent(back, target);
    WithoutAppend(front + [target], back, target);
    WithoutAppend(front, [target], target);
    assert Without([target], target) == [] by { assert [target][..0] == []; }
    hide Without, Renumbered;
    assert Without(front + [target], target) == Renumbered(front, target);
  }

  lemma SpliceTarget(a: seq<nat>, target: nat, at: nat)
    requires Seqs.Distinct(a) && at < |a| && a[at] == target
    ensures Renumbered(a, target)[..at] + Renumbered(a, target)[at + 1..] == Without(a, target)
  {
    var front, back := a[..at], a[at + 1..];
    assert target !in front && target !in back;
    assert a == front + [target] + back;
    WithoutAround(front, target, back);
    hide Seqs.Distinct, Without;
    assert Renumbered(a, target)[..at] == Renumbered(front, target);
    assert Renumbered(a, target)[at + 1..] == Renumbered(back, target);
  }

  // ------------------------------------------------------------------ in terms of the old numbers

  predicate Below(a: seq<nat>, n: nat) {
    forall i :: 0 <= i < |a| ==> a[i] < n
  }

  /** Each index replaced by the number its row had at first. */
  function Originals(a: seq<nat>, keep: seq<nat>): (r: seq<nat>)
    requires Below(a, |keep|)
    ensures |r| == |a| && forall i :: 0 <= i < |a| ==> r[i] == keep[a[i]]
  {
    seq(|a|, i requires 0 <= i < |a| => keep[a[i]])
  }

  function Drop(keep: seq<nat>, row: nat): (r: seq<nat>)
    requires row < |keep|
    ensures |r| == |keep| - 1
    ensures forall x :: 0 <= x < |keep| && x != row ==> r[Renumber(x, row)] == keep[x]
  {
    keep[..row] + keep[row + 1..]
  }

  lemma {:induction false} WithoutMembers(a: seq<nat>, row: nat)
    ensures forall x :: x in Without(a, row) ==> exists y :: y in a && y != row && x == Renumber(y, row)
  {
    if a != [] { WithoutMembers(a[..|a| - 1], row); }
  }

  lemma WithoutIsBelow(a: seq<nat>, n: nat, row: nat)
    requires Below(a, n) && row < n
    ensures Below(Without(a, row), n - 1)
  {
    WithoutMembers(a, row);
    forall i | 0 <= i < |Without(a, row)| ensures Without(a, row)[i] < n - 1 {
      assert Without(a, row)[i] in Without(a, row);
    }
  }

  lemma {:induction false} WithoutIsDistinct(a: seq<nat>, row: nat)
    requires Seqs.Distinct(a)
    ensures Seqs.Distinct(Without(a, row))
  {
    if a != [] {
      var front, last := a[..|a| - 1], a[|a| - 1];
      WithoutIsDistinct(front, row);
      WithoutMembers(front, row);
      assert last !in front;
      forall i | 0 <= i < |Without(front, row)| && last != row ensures Without(front, row)[i] != Renumber(last, row) {
        assert Without(front, row)[i] in Without(front, row);
      }
    }
  }

  lemma OriginalsSnoc(a: seq<nat>, x: nat, keep: seq<nat>)
    requires Below(a, |keep|) && x < |keep|
    ensures Below(a + [x], |keep|) && Originals(a + [x], keep) == Originals(a, keep) + [keep[x]]
  {
  }

  lemma FilterSnoc(a: seq<nat>, x: nat, p: nat -> bool)
    ensures Seqs.Filter(a + [x], p) == Seqs.Filter(a, p) + if p(x) then [x] else []
  {
    assert (a + [x])[..|a|] == a;
  }

  /** Deleting a row from an index array is deleting its original number from the originals. */
  lemma {:induction false} DeletedOriginals(a: seq<nat>, keep: seq<nat>, row: nat)
    requires Increasing(keep) && row < |keep| && Below(a, |keep|)
    ensures Below(Without(a, row), |keep| - 1)
    ensures Originals(Without(a, row), Drop(keep, row)) == Seqs.Filter(Originals(a, keep), NotIn({keep[row]}))
  {
    if a != [] {
      var front, last := a[..|a| - 1], a[|a| - 1];
      assert a == front + [last];
      DeletedOriginals(front, keep, row);
      DeletedOriginalsStep(front, last, keep, row);
    }
  }

  lemma WithoutSnoc(a: seq<nat>, x: nat, row: nat)
    ensures Without(a + [x], row) == Without(a, row) + if x == row then [] else [Renumber(x, row)]
  {
    assert (a + [x])[..|a|] == a;
  }

  lemma DeletedOriginalsStep(front: seq<nat>, last: nat, keep: seq<nat>, row: nat)
    requires Increasing(keep) && row < |keep| && Below(front, |keep|) && last < |keep|
    requires Below(Without(front, row), |keep| - 1)
    requires Originals(Without(front, row), Drop(keep, row)) == Seqs.Filter(Originals(front, keep), NotIn({keep[row]}))
    ensures Below(front + [last], |keep|) && Below(Without(front + [last], row), |keep| - 1)
    ensures Originals(Without(front + [last], row), Drop(keep, row)) ==
            Seqs.Filter(Originals(front + [last], keep), NotIn({keep[row]}))
  {
    assert keep[last] == keep[row] <==> last == row;
    WithoutSnoc(front, last, row);
    OriginalsSnoc(front, last, keep);
    FilterSnoc(Originals(front, keep), keep[last], NotIn({keep[row]}));
    if last != row {
      OriginalsSnoc(Without(front, row), Renumber(last, row), Drop(keep, row));
    }
    hide Increasing, Without, Seqs.Filter, Originals, Drop;
  }

  lemma DropIsIncreasing(keep: seq<nat>, row: nat)
    requires Increasing(keep) && row < |keep|
    ensures Increasing(Drop(keep, row))
  {
  }

  lemma DropMembers(keep: seq<nat>, row: nat)
    requires Increasing(keep) && row < |keep|
    ensures forall k :: k in Drop(keep, row) <==> k in keep && k != keep[row]
  {
    var front, back := keep[..row], keep[row + 1..];
    assert keep == front + [keep[row]] + back;
    assert forall k :: k in front ==> k < keep[row];
    assert forall k :: k in back ==> k > keep[row];
  }

  // ------------------------------------------------------------------ removing a list of rows

  /** An index array after the rows `items` have been removed one by one, the items themselves
      being renumbered after each removal. */
  function Removals(items: seq<nat>, a: seq<nat>): seq<nat>
    decreases |items|
  {
    if items == [] then a
    else Removals(Renumbered(items[1..], items[0]), Without(a, items[0]))
  }

  /** The rows themselves under the same removals. */
  function RowsLeft<T>(items: seq<nat>, rows: seq<T>): (r: seq<T>)
    decreases |items|
  {
    if items == [] || items[0] >= |rows| then rows
    else RowsLeft(Renumbered(items[1..], items[0]), rows[..items[0]] + rows[items[0] + 1..])
  }

  ghost predicate Targets(items: seq<nat>, n: nat) {
    Seqs.Distinct(items) && Below(items, n)
  }

  lemma TailTargets(items: seq<nat>, n: nat)
    requires items != [] && Targets(items, n)
    ensures Targets(Renumbered(items[1..], items[0]), n - 1)
  {
    var rest := items[1..];
    assert items[0] !in rest;
    forall i, j | 0 <= i < j < |rest|
      ensures Renumber(rest[i], items[0]) != Renumber(rest[j], items[0])
    {
      assert rest[i] != rest[j] && rest[i] in rest && rest[j] in rest;
    }
    forall i | 0 <= i < |rest| ensures Renumber(rest[i], items[0]) < n - 1 {
      assert rest[i] in rest;
    }
  }

  function Members(a: seq<nat>): set<nat> {
    set x | x in a
  }

  lemma TailOriginals(items: seq<nat>, keep: seq<nat>)
    requires items != [] && Targets(items, |keep|)
    ensures Below(Renumbered(items[1..], items[0]), |keep| - 1)
    ensures Originals(Renumbered(items[1..], items[0]), Drop(keep, items[0])) == Originals(items, keep)[1..]
  {
    TailTargets(items, |keep|);
    assert items[0] !in items[1..];
    forall i | 0 <= i < |items| - 1
      ensures Drop(keep, items[0])[Renumber(items[1..][i], items[0])] == keep[items[i + 1]]
    {
      assert items[1..][i] == items[i + 1] && items[1..][i] in items[1..];
    }
    hide Drop, Seqs.Distinct, Increasing;
    var l, r := Originals(Renumbered(items[1..], items[0]), Drop(keep, items[0])), Originals(items, keep)[1..];
    assert |l| == |r| && forall i :: 0 <= i < |l| ==> l[i] == r[i];
  }

  /** Whatever the order of the items, what is left in an index array are the indexes of the
      rows that were not meant, in their old order. */
  lemma {:induction false} RemovalsMeaning(items: seq<nat>, keep: seq<nat>, a: seq<nat>)
    requires Increasing(keep) && Targets(items, |keep|) && Below(a, |keep|)
    ensures var left := RowsLeft<nat>(items, keep);
            && Increasing(left)
            && (forall k :: k in left <==> k in keep && k !in Members(Originals(items, keep)))
            && Below(Removals(items, a), |left|)
            && Originals(Removals(items, a), left) ==
               Seqs.Filter(Originals(a, keep), NotIn(Members(Originals(items, keep))))
    decreases |items|
  {
    if items == [] {
      Seqs.FilterAll(Originals(a, keep), NotIn({}));
      assert Members(Originals(items, keep)) == {};
    } else {
      var row, rest := items[0], Renumbered(items[1..], items[0]);
      TailTargets(items, |keep|);
      TailOriginals(items, keep);
      DropIsIncreasing(keep, row);
      DropMembers(keep, row);
      DeletedOriginals(a, keep, row);
      RemovalsMeaning(rest, Drop(keep, row), Without(a, row));
      FilterMoreOriginals(items, keep, a);
    }
  }

  lemma FilterMoreOriginals(items: seq<nat>, keep: seq<nat>, a: seq<nat>)
    requires items != [] && Below(items, |keep|) && Below(a, |keep|)
    ensures Members(Originals(items, keep)) == {keep[items[0]]} + Members(Originals(items, keep)[1..])
    ensures Seqs.Filter(Seqs.Filter(Originals(a, keep), NotIn({keep[items[0]]})), NotIn(Members(Originals(items, keep)[1..]))) ==
            Seqs.Filter(Originals(a, keep), NotIn(Members(Originals(items, keep))))
  {
    var o := Originals(items, keep);
    assert o == [o[0]] + o[1..];
    Seqs.FilterTwice(Originals(a, keep), NotIn({o[0]}), NotIn(Members(o[1..])), NotIn(Members(o)));
  }

  /** Removing distinct rows, in any order: of n rows exactly those not listed are left, in their
      old order; an index array keeps exactly their indexes, in its old order. `left` tells the
      old number of each row that is left. */
  lemma RemovesExactly<T>(items: seq<nat>, rows: seq<T>, a: seq<nat>)
    requires Targets(items, |rows|) && Below(a, |rows|)
    ensures var left := RowsLeft<nat>(items, Upto(|rows|));
            && Increasing(left)
            && (forall k: nat :: k in left <==> k < |rows| && k !in items)
            && Below(left, |rows|) && RowsLeft(items, rows) == Picked(rows, left)
            && Below(Removals(items, a), |left|)
            && Originals(Removals(items, a), left) == Seqs.Filter(a, NotIn(Members(items)))
  {
    hide Increasing, Upto, Removals, RowsLeft, Targets, Below, Originals, Picked, Seqs.Filter;
    var all := Upto(|rows|);
    UptoIsIdentity(|rows|, items);
    UptoIsIdentity(|rows|, a);
    UptoPicksAll(rows);
    RemovalsMeaning(items, all, a);
    RowsLeftPicked(items, rows, all);
    TargetMembers(items, |rows|);
  }

  lemma UptoIsIdentity(n: nat, a: seq<nat>)
    ensures Increasing(Upto(n)) && Below(Upto(n), n) && forall k :: k in Upto(n) <==> 0 <= k < n
    ensures Below(a, n) ==> Originals(a, Upto(n)) == a
  {
    forall k | 0 <= k < n ensures k in Upto(n) {
      assert Upto(n)[k] == k;
    }
  }

  lemma UptoPicksAll<T>(rows: seq<T>)
    ensures Below(Upto(|rows|), |rows|) && Picked(rows, Upto(|rows|)) == rows
  {
  }

  lemma TargetMembers(items: seq<nat>, n: nat)
    requires Targets(items, n)
    ensures Below(items, n)
  {
  }

  function Picked<T>(rows: seq<T>, keep: seq<nat>): (r: seq<T>)
    requires Below(keep, |rows|)
    ensures |r| == |keep| && forall i :: 0 <= i < |keep| ==> r[i] == rows[keep[i]]
  {
    seq(|keep|, i requires 0 <= i < |keep| => rows[keep[i]])
  }

  lemma {:induction false} RowsLeftPicked<T>(items: seq<nat>, rows: seq<T>, keep: seq<nat>)
    requires Targets(items, |keep|) && Below(keep, |rows|)
    ensures Below(RowsLeft(items, keep), |rows|)
    ensures RowsLeft(items, Picked(rows, keep)) == Picked(rows, RowsLeft(items, keep))
    decreases |items|
  {
    if items != [] {
      var row, rest, p := items[0], Renumbered(items[1..], items[0]), Picked(rows, keep);
      TailTargets(items, |keep|);
      assert p[..row] + p[row + 1..] == Picked(rows, Drop(keep, row));
      assert Below(Drop(keep, row), |rows|);
      RowsLeftPicked(rest, rows, Drop(keep, row));
    }
  }
}
