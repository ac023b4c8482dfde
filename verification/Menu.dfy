/** menu.c: the cursor of a menu, which skips subtitles and wraps around. */
module MenuModel {
  datatype ItemType = Action | Submenu | Subtitle

  predicate Selectable(items: seq<ItemType>, i: int) {
    0 <= i < |items| && items[i] != Subtitle
  }

  /** Something can be selected. */
  predicate Usable(items: seq<ItemType>) {
    exists i :: 0 <= i < |items| && Selectable(items, i)
  }

  /** The selectable positions below n, in order. */
  function PositionsBelow(items: seq<ItemType>, n: nat): seq<nat>
    requires n <= |items|
  {
    if n == 0 then []
    else PositionsBelow(items, n - 1) + (if Selectable(items, n - 1) then [n - 1] else [])
  }

  function Positions(items: seq<ItemType>): seq<nat> {
    PositionsBelow(items, |items|)
  }

  lemma {:induction false} PositionBelow(items: seq<ItemType>, n: nat, k: nat)
    requires n <= |items| && k < |PositionsBelow(items, n)|
    ensures PositionsBelow(items, n)[k] < n && Selectable(items, PositionsBelow(items, n)[k])
  {
    if k < |PositionsBelow(items, n - 1)| { PositionBelow(items, n - 1, k); }
  }

  lemma {:induction false} AscendBelow(items: seq<ItemType>, n: nat, k: nat, m: nat)
    requires n <= |items| && k < m < |PositionsBelow(items, n)|
    ensures PositionsBelow(items, n)[k] < PositionsBelow(items, n)[m]
  {
    if m < |PositionsBelow(items, n - 1)| {
      AscendBelow(items, n - 1, k, m);
    } else {
      PositionBelow(items, n - 1, k);
    }
  }

  lemma {:induction false} RankBelow(items: seq<ItemType>, n: nat, i: nat) returns (t: nat)
    requires i < n <= |items| && Selectable(items, i)
    ensures t < |PositionsBelow(items, n)| && PositionsBelow(items, n)[t] == i
  {
    if i == n - 1 { t := |PositionsBelow(items, n - 1)|; } else { t := RankBelow(items, n - 1, i); }
  }

  /** Each entry is a selectable position, they ascend, and every selectable position is there. */
  lemma PositionAt(items: seq<ItemType>, k: nat)
    requires k < |Positions(items)|
    ensures Selectable(items, Positions(items)[k]) && Usable(items)
  {
    PositionBelow(items, |items|, k);
  }

  lemma Ascend(items: seq<ItemType>, k: nat, m: nat)
    requires k < m < |Positions(items)|
    ensures Positions(items)[k] < Positions(items)[m]
  {
    AscendBelow(items, |items|, k, m);
  }

  lemma Rank(items: seq<ItemType>, i: nat) returns (t: nat)
    requires Selectable(items, i)
    ensures t < |Positions(items)| && Positions(items)[t] == i
  {
    t := RankBelow(items, |items|, i);
  }

  /** One step forwards or backwards around the menu. */
  function After(i: nat, n: nat): (j: nat)
    requires i < n
    ensures j < n
  {
    if i < n - 1 then i + 1 else 0
  }

  function Before(i: nat, n: nat): (j: nat)
    requires i < n
    ensures j < n
  {
    if i > 0 then i - 1 else n - 1
  }

  /** Steps forwards from i to s, at least one. */
  function Ahead(i: nat, s: nat, n: nat): nat
    requires i < n && s < n
  {
    if i < s then s - i else n - i + s
  }

  function FirstSelectable(items: seq<ItemType>): (s: nat)
    requires Usable(items)
    ensures Selectable(items, s)
  {
    assert Positions(items) != [] by {
      var i :| 0 <= i < |items| && Selectable(items, i);
      var _ := Rank(items, i);
    }
    PositionAt(items, 0);
    Positions(items)[0]
  }

  /** Where menu_next_item goes. */
  function Next(items: seq<ItemType>, i: nat): (j: nat)
    requires Usable(items) && i < |items|
    ensures Selectable(items, j)
    decreases Ahead(i, FirstSelectable(items), |items|)
  {
    var j := After(i, |items|);
    if items[j] == Subtitle then Next(items, j) else j
  }

  /** Where menu_previous_item goes. */
  function Previous(items: seq<ItemType>, i: nat): (j: nat)
    requires Usable(items) && i < |items|
    ensures Selectable(items, j)
    decreases Ahead(FirstSelectable(items), i, |items|)
  {
    var j := Before(i, |items|);
    if items[j] == Subtitle then Previous(items, j) else j
  }

  /** Nothing selectable strictly between. */
  predicate Gap(items: seq<ItemType>, lo: int, hi: int) {
    forall k | lo < k < hi :: !Selectable(items, k)
  }

  lemma {:induction false} NextForward(items: seq<ItemType>, i: nat, j: nat)
    requires i < j && Selectable(items, j) && Gap(items, i, j)
    ensures Next(items, i) == j
    decreases j - i
  {
    if i + 1 < j {
      assert !Selectable(items, i + 1);
      NextForward(items, i + 1, j);
    }
  }

  lemma {:induction false} NextWraps(items: seq<ItemType>, i: nat, j: nat)
    requires i < |items| && Selectable(items, j) && Gap(items, i, |items|) && Gap(items, -1, j)
    ensures Next(items, i) == j
    decreases |items| - i
  {
    if i + 1 < |items| {
      assert !Selectable(items, i + 1);
      NextWraps(items, i + 1, j);
    } else if j > 0 {
      assert !Selectable(items, 0);
      NextForward(items, 0, j);
    }
  }

  lemma {:induction false} PreviousBackward(items: seq<ItemType>, i: nat, j: nat)
    requires j < i < |items| && Selectable(items, j) && Gap(items, j, i)
    ensures Previous(items, i) == j
    decreases i - j
  {
    if j < i - 1 {
      assert !Selectable(items, i - 1);
      PreviousBackward(items, i - 1, j);
    }
  }

  lemma {:induction false} PreviousWraps(items: seq<ItemType>, i: nat, j: nat)
    requires i < |items| && Selectable(items, j) && Gap(items, -1, i) && Gap(items, j, |items|)
    ensures Previous(items, i) == j
    decreases i
  {
    if i > 0 {
      assert !Selectable(items, i - 1);
      PreviousWraps(items, i - 1, j);
    } else if j < |items| - 1 {
      assert !Selectable(items, |items| - 1);
      PreviousBackward(items, |items| - 1, j);
    }
  }

  /** Between neighbours in the list of positions there are only subtitles. */
  lemma NoneBetween(items: seq<ItemType>, t: nat)
    requires t + 1 < |Positions(items)|
    ensures Gap(items, Positions(items)[t], Positions(items)[t + 1])
  {
    hide Positions;
    var ps := Positions(items);
    forall k | ps[t] < k < ps[t + 1] ensures !Selectable(items, k) {
      if Selectable(items, k) {
        var m := Rank(items, k);
        if m < t { Ascend(items, m, t); } else if t + 1 < m { Ascend(items, t + 1, m); }
      }
    }
  }

  /** And so it is before the first and after the last. */
  lemma NoneOutside(items: seq<ItemType>)
    requires Positions(items) != []
    ensures var ps := Positions(items); Gap(items, -1, ps[0]) && Gap(items, ps[|ps| - 1], |items|)
  {
    hide Positions;
    var ps := Positions(items);
    forall k | Selectable(items, k) ensures ps[0] <= k <= ps[|ps| - 1] {
      var m := Rank(items, k);
      if m > 0 { Ascend(items, 0, m); }
      if m < |ps| - 1 { Ascend(items, m, |ps| - 1); }
    }
  }

  /** The index after t in a cycle of n. */
  function Successor(t: nat, n: nat): (u: nat)
    requires t < n
    ensures u < n
  {
    if t + 1 < n then t + 1 else 0
  }

  /** Next goes from each selectable position to the one after it, and from the last to the first;
      previous goes back. */
  lemma {:induction false} NextInOrder(items: seq<ItemType>, t: nat)
    requires t < |Positions(items)|
    ensures Usable(items)
    ensures var ps := Positions(items);
            var u := Successor(t, |ps|);
            Selectable(items, ps[t]) && Selectable(items, ps[u]) &&
            Next(items, ps[t]) == ps[u] && Previous(items, ps[u]) == ps[t]
  {
    hide Positions, Next, Previous;
    var ps := Positions(items);
    PositionAt(items, t);
    PositionAt(items, Successor(t, |ps|));
    if t + 1 < |ps| {
      Ascend(items, t, t + 1);
      NoneBetween(items, t);
      NextForward(items, ps[t], ps[t + 1]);
      PreviousBackward(items, ps[t + 1], ps[t]);
    } else {
      NoneOutside(items);
      NextWraps(items, ps[t], ps[0]);
      PreviousWraps(items, ps[0], ps[t]);
    }
  }

  /** On selectable items each move undoes the other. */
  lemma {:induction false} MovesInverse(items: seq<ItemType>, i: nat)
    requires Selectable(items, i)
    ensures Usable(items) && Previous(items, Next(items, i)) == i && Next(items, Previous(items, i)) == i
  {
    hide Positions, Next, Previous;
    var n := |Positions(items)|;
    var t := Rank(items, i);
    NextInOrder(items, t);
    NextInOrder(items, if t > 0 then t - 1 else n - 1);
  }

  /** The position after so many presses of next. */
  function Pressed(items: seq<ItemType>, i: nat, presses: nat): (j: nat)
    requires Usable(items) && i < |items|
    ensures j < |items|
  {
    if presses == 0 then i else Next(items, Pressed(items, i, presses - 1))
  }

  /** The index p places after t in a cycle of n, for at most one round. */
  function Along(t: nat, p: nat, n: nat): (u: nat)
    requires t < n && p <= n
    ensures u < n
  {
    if t + p < n then t + p else t + p - n
  }

  /** Presses walk through the selectable positions in order, from the last on to the first. */
  lemma {:induction false} PressesInOrder(items: seq<ItemType>, t: nat, presses: nat)
    requires t < |Positions(items)| && presses <= |Positions(items)|
    ensures Usable(items) && Selectable(items, Positions(items)[t])
    ensures Pressed(items, Positions(items)[t], presses) == Positions(items)[Along(t, presses, |Positions(items)|)]
    decreases presses
  {
    hide Positions, Next;
    PositionAt(items, t);
    if presses > 0 {
      PressesInOrder(items, t, presses - 1);
      NextInOrder(items, Along(t, presses - 1, |Positions(items)|));
    }
  }

  predicate Reaches(items: seq<ItemType>, i: nat, k: nat, j: int)
    requires Usable(items) && i < |items|
  {
    exists a: nat :: a < k && Pressed(items, i, a) == j
  }

  /** As many presses as there are selectable items visit each of them once and end where they
      began. */
  lemma {:induction false} FullCycle(items: seq<ItemType>, i: nat)
    requires Selectable(items, i)
    ensures Usable(items)
    ensures var k := |Positions(items)|;
            && Pressed(items, i, k) == i
            && (forall a, b | 0 <= a < b < k :: Pressed(items, i, a) != Pressed(items, i, b))
            && (forall j | Selectable(items, j) :: Reaches(items, i, k, j))
  {
    hide Positions, Pressed;
    var k := |Positions(items)|;
    var t := Rank(items, i);
    PressesInOrder(items, t, k);
    forall a, b | 0 <= a < b < k ensures Pressed(items, i, a) != Pressed(items, i, b) {
      PressesInOrder(items, t, a);
      PressesInOrder(items, t, b);
      var u, v := Along(t, a, k), Along(t, b, k);
      if u < v { Ascend(items, u, v); } else { Ascend(items, v, u); }
    }
    forall j | Selectable(items, j) ensures Reaches(items, i, k, j) {
      var m := Rank(items, j);
      var a := if m >= t then m - t else m - t + k;
      PressesInOrder(items, t, a);
    }
  }
}

module Menu {
  import opened MenuModel

  const MAX_ITEMS := 0x1_0000

  /** The current menu, with its own items or, when it is dynamic, the cached ones. */
  class Cursor {
    var dynamic: bool
    var items: seq<ItemType>
    var cached: seq<ItemType>
    var index: nat

    function Items(): seq<ItemType>
      reads this
    {
      if dynamic then cached else items
    }

    ghost predicate Valid()
      reads this
    {
      Usable(Items()) && index < |Items()| <= MAX_ITEMS
    }

    constructor (dynamic: bool, items: seq<ItemType>, cached: seq<ItemType>)
      ensures this.dynamic == dynamic && this.items == items && this.cached == cached && index == 0
    {
      this.dynamic, this.items, this.cached, index := dynamic, items, cached, 0;
    }

    /** menu_current_item */
    method CurrentItem() returns (item: ItemType)
      requires Valid()
      ensures item == Items()[index]
    {
      if dynamic {
        item := cached[index];
      } else {
        item := items[index];
      }
    }

    /** menu_next_item; the index is 16 bits wide. */
    method NextItem()
      requires Valid()
      modifies `index
      ensures Valid() && index == Next(Items(), old(index))
      decreases Ahead(index, FirstSelectable(Items()), |Items()|)
    {
      var n := if dynamic then |cached| else |items|;
      if index < n - 1 {
        index := (index + 1) % MAX_ITEMS;
      } else {
        index := 0;
      }
      var item := CurrentItem();
      if item == Subtitle { NextItem(); }
    }

    /** menu_previous_item */
    method PreviousItem()
      requires Valid()
      modifies `index
      ensures Valid() && index == Previous(Items(), old(index))
      decreases Ahead(FirstSelectable(Items()), index, |Items()|)
    {
      var n := if dynamic then |cached| else |items|;
      if index > 0 {
        index := index - 1;
      } else {
        index := (n - 1) % MAX_ITEMS;
      }
      var item := CurrentItem();
      if item == Subtitle { PreviousItem(); }
    }
  }
}
