/** Which of several entries for a device is kept when duplicates are removed by moving the last element
    of the list into the gap (lib/config/config.go). */
module ConfigFirsts {
  import opened ConfigLists

  /** The entries p and q are the first and the last one of an ID. */
  ghost predicate AreFirstAndLast<T(!new)>(list: seq<T>, p: nat, q: nat, id: T -> DeviceID) {
    && p <= q < |list| && id(list[p]) == id(list[q])
    && (forall i :: 0 <= i < |list| && id(list[i]) == id(list[p]) ==> p <= i <= q)
  }

  /** The IDs of the entries before p and after q, and those seen before. */
  ghost function IdsAround<T(!new)>(list: seq<T>, seen: set<DeviceID>, p: nat, q: nat, id: T -> DeviceID): set<DeviceID>
    requires p <= q < |list|
  {
    seen + Ids(list[..p], id) + Ids(list[q + 1..], id)
  }

  /** Whether these are enough to fill the places before p. */
  ghost predicate FillUp<T(!new)>(list: seq<T>, seen: set<DeviceID>, p: nat, q: nat, id: T -> DeviceID)
    requires p <= q < |list|
  {
    |IdsAround(list, seen, p, q, id)| >= |seen| + p
  }

  ghost predicate SurvivesAs<T(!new)>(r: seq<T>, x: T, id: T -> DeviceID) {
    x in r && forall y :: y in r && id(y) == id(x) ==> y == x
  }

  // ---------- Counting IDs ----------

  lemma {:induction false} FewIds<T(!new)>(seen: set<DeviceID>, list: seq<T>, id: T -> DeviceID)
    ensures |seen + Ids(list, id)| <= |seen| + |list|
  {
    if list == [] {
      assert seen + Ids(list, id) == seen;
    } else {
      var init, last := list[..|list| - 1], list[|list| - 1];
      IdsOfMore(init, [last], id);
      assert list == init + [last];
      assert Ids([last], id) == {id(last)};
      assert seen + Ids(list, id) == (seen + Ids(init, id)) + {id(last)};
      FewIds(seen, init, id);
    }
  }

  lemma IdsOfMore<T(!new)>(a: seq<T>, b: seq<T>, id: T -> DeviceID)
    ensures Ids(a + b, id) == Ids(a, id) + Ids(b, id)
  {
    assert forall x :: x in a + b <==> x in a || x in b;
  }

  lemma IdsOfOne<T(!new)>(x: T, b: seq<T>, id: T -> DeviceID)
    ensures Ids([x] + b, id) == {id(x)} + Ids(b, id)
    ensures Ids(b + [x], id) == {id(x)} + Ids(b, id)
  {
    IdsOfMore([x], b, id);
    IdsOfMore(b, [x], id);
    assert Ids([x], id) == {id(x)};
  }

  lemma FillKept<T(!new)>(list: seq<T>, seen: set<DeviceID>, p: nat, q: nat, id: T -> DeviceID)
    requires 0 < p <= q < |list| && id(list[0]) !in seen
    ensures FillUp(list, seen, p, q, id) == FillUp(list[1..], seen + {id(list[0])}, p - 1, q - 1, id)
  {
    var rest := list[1..];
    assert list[..p] == [list[0]] + rest[..p - 1] && list[q + 1..] == rest[q - 1 + 1..];
    IdsOfOne(list[0], rest[..p - 1], id);
    hide Ids;
    assert IdsAround(list, seen, p, q, id) == IdsAround(rest, seen + {id(list[0])}, p - 1, q - 1, id);
  }

  /** What is left when the first element gives way to the last one. */
  ghost function Moved<T(!new)>(list: seq<T>): (rest: seq<T>)
    requires list != []
    ensures |rest| == |list| - 1
  {
    list[0 := list[|list| - 1]][..|list| - 1]
  }

  lemma SlicesOfMoved<T(!new)>(list: seq<T>, p: nat, q: nat)
    requires 0 < p <= q < |list| - 1
    ensures var n, rest := |list| - 1, Moved(list);
            && list[..p] == [list[0]] + list[1..p] && rest[..p] == [list[n]] + list[1..p]
            && list[q + 1..] == list[q + 1..n] + [list[n]] && rest[q + 1..] == list[q + 1..n]
            && rest[p] == list[p] && rest[q] == list[q]
  {
  }

  lemma FillDropped<T(!new)>(list: seq<T>, seen: set<DeviceID>, p: nat, q: nat, id: T -> DeviceID)
    requires 0 < p <= q < |list| - 1 && id(list[0]) in seen
    ensures FillUp(list, seen, p, q, id) == FillUp(Moved(list), seen, p, q, id)
  {
    var n := |list| - 1;
    SlicesOfMoved(list, p, q);
    IdsOfOne(list[0], list[1..p], id);
    IdsOfOne(list[n], list[1..p], id);
    IdsOfOne(list[n], list[q + 1..n], id);
    hide Ids;
    hide Moved;
    assert IdsAround(list, seen, p, q, id) == IdsAround(Moved(list), seen, p, q, id);
  }

  lemma NothingToFillUp<T(!new)>(list: seq<T>, seen: set<DeviceID>, p: nat, q: nat, id: T -> DeviceID)
    requires 0 < p <= q == |list| - 1 && id(list[0]) in seen
    ensures !FillUp(list, seen, p, q, id)
  {
    assert list[..p] == [list[0]] + list[1..p] && list[q + 1..] == [];
    IdsOfOne(list[0], list[1..p], id);
    FewIds(seen, list[1..p], id);
    var none: seq<T> := [];
    assert Ids(none, id) == {};
    hide Ids;
    assert IdsAround(list, seen, p, q, id) == seen + Ids(list[1..p], id);
  }

  lemma FirstIsFilled<T(!new)>(list: seq<T>, seen: set<DeviceID>, q: nat, id: T -> DeviceID)
    requires q < |list|
    ensures FillUp(list, seen, 0, q, id)
  {
    var around := IdsAround(list, seen, 0, q, id);
    assert around == seen + (around - seen);
  }

  // ---------- First or last ----------

  lemma OnlyOne<T(!new)>(x: T, todo: seq<T>, seen: set<DeviceID>, id: T -> DeviceID)
    ensures SurvivesAs([x] + Survivors(Duplicate, todo, seen + {id(x)}, id), x, id)
  {
    var r := Survivors(Duplicate, todo, seen + {id(x)}, id);
    OneOfEachSurvives(Duplicate, todo, seen + {id(x)}, id);
    hide Survivors;
    forall y | y in [x] + r && id(y) == id(x) ensures y == x {
      assert y in r ==> id(y) in Ids(r, id);
    }
  }

  lemma OneInFront<T(!new)>(x: T, r: seq<T>, y: T, id: T -> DeviceID)
    requires SurvivesAs(r, y, id) && id(x) != id(y)
    ensures SurvivesAs([x] + r, y, id)
  {
  }

  lemma FirstOfList<T(!new)>(list: seq<T>, seen: set<DeviceID>, id: T -> DeviceID)
    requires list != []
    ensures Survivors(Duplicate, list, seen, id) ==
            if id(list[0]) in seen then Survivors(Duplicate, Moved(list), seen, id)
            else [list[0]] + Survivors(Duplicate, list[1..], seen + {id(list[0])}, id)
  {
  }

  lemma StillFirstAndLast<T(!new)>(list: seq<T>, p: nat, q: nat, id: T -> DeviceID)
    requires AreFirstAndLast(list, p, q, id) && p > 0
    ensures AreFirstAndLast(list[1..], p - 1, q - 1, id)
    ensures q < |list| - 1 ==> AreFirstAndLast(Moved(list), p, q, id)
    ensures q < |list| - 1 ==> Moved(list)[p] == list[p] && Moved(list)[q] == list[q]
    ensures q == |list| - 1 ==> Moved(list) == [list[q]] + Moved(list)[1..]
  {
    assert forall i :: 0 < i < |list| - 1 ==> Moved(list)[i] == list[i];
  }

  /** Of the entries of an ID the first one survives if the places before it can be filled without using
      up the last one, and otherwise the last one does. */
  lemma {:induction false} FirstOrLastSurvives<T(!new)>(list: seq<T>, seen: set<DeviceID>, p: nat, q: nat,
      id: T -> DeviceID)
    requires AreFirstAndLast(list, p, q, id) && id(list[p]) !in seen
    ensures SurvivesAs(Survivors(Duplicate, list, seen, id), list[if FillUp(list, seen, p, q, id) then p else q], id)
    decreases |list|
  {
    hide Survivors;
    hide FillUp;
    hide SurvivesAs;
    hide Moved;
    var x := list[0];
    FirstOfList(list, seen, id);
    if p == 0 {
      OnlyOne(x, list[1..], seen, id);
      FirstIsFilled(list, seen, q, id);
      return;
    }
    StillFirstAndLast(list, p, q, id);
    if id(x) !in seen {
      FillKept(list, seen, p, q, id);
      FirstOrLastSurvives(list[1..], seen + {id(x)}, p - 1, q - 1, id);
      assert id(x) != id(list[p]);
      var y := list[if FillUp(list, seen, p, q, id) then p else q];
      OneInFront(x, Survivors(Duplicate, list[1..], seen + {id(x)}, id), y, id);
    } else if q < |list| - 1 {
      FillDropped(list, seen, p, q, id);
      FirstOrLastSurvives(Moved(list), seen, p, q, id);
    } else {
      NothingToFillUp(list, seen, p, q, id);
      FirstOfList(Moved(list), seen, id);
      OnlyOne(list[q], Moved(list)[1..], seen, id);
    }
  }

  // ---------- The first entry of every ID ----------

  ghost predicate KeepsFirsts<T(!new)>(list: seq<T>, id: T -> DeviceID) {
    forall p: nat, q: nat :: AreFirstAndLast(list, p, q, id) ==> list[p] in Survivors(Duplicate, list, {}, id)
  }

  /** For each ID whose first and last entries differ, the entries before the first and after the last one
      have together at least as many different IDs as there are entries before the first one. */
  ghost predicate EnoughAround<T(!new)>(list: seq<T>, id: T -> DeviceID) {
    forall p: nat, q: nat :: AreFirstAndLast(list, p, q, id) && list[p] != list[q] ==>
      |Ids(list[..p], id) + Ids(list[q + 1..], id)| >= p
  }

  lemma OneIsFirst<T(!new)>(list: seq<T>, p: nat, q: nat, id: T -> DeviceID)
    requires AreFirstAndLast(list, p, q, id)
    ensures list[p] in Survivors(Duplicate, list, {}, id) <==>
            (list[p] != list[q] ==> |Ids(list[..p], id) + Ids(list[q + 1..], id)| >= p)
  {
    FirstOrLastSurvives(list, {}, p, q, id);
    hide Survivors;
    assert IdsAround(list, {}, p, q, id) == Ids(list[..p], id) + Ids(list[q + 1..], id);
  }

  /** Removing duplicates keeps the first entry of each ID exactly under this condition. */
  lemma FirstsSurvive<T(!new)>(list: seq<T>, id: T -> DeviceID)
    ensures KeepsFirsts(list, id) <==> EnoughAround(list, id)
  {
    forall p: nat, q: nat | AreFirstAndLast(list, p, q, id)
      ensures list[p] in Survivors(Duplicate, list, {}, id) <==>
              (list[p] != list[q] ==> |Ids(list[..p], id) + Ids(list[q + 1..], id)| >= p)
    {
      OneIsFirst(list, p, q, id);
    }
    hide Survivors;
    hide Ids;
    hide AreFirstAndLast;
  }

  /** Where entries with the empty ID go as well, this is as if that ID had been seen before. */
  lemma {:induction false} EmptyCountsAsSeen<T(!new)>(list: seq<T>, seen: set<DeviceID>, id: T -> DeviceID)
    ensures Survivors(DuplicateOrEmpty, list, seen, id) == Survivors(Duplicate, list, seen + {EMPTY_DEVICE_ID}, id)
    decreases |list|
  {
    if list != [] {
      if Drops(DuplicateOrEmpty, id(list[0]), seen) {
        EmptyCountsAsSeen(Moved(list), seen, id);
      } else {
        EmptyCountsAsSeen(list[1..], seen + {id(list[0])}, id);
        assert seen + {id(list[0])} + {EMPTY_DEVICE_ID} == seen + {EMPTY_DEVICE_ID} + {id(list[0])};
      }
    }
  }

  /** In particular it does if all duplicates come last; the first entries then even keep their order. */
  lemma {:induction false} DuplicatesLast<T(!new)>(first: seq<T>, more: seq<T>, seen: set<DeviceID>, id: T -> DeviceID)
    requires Distinct(first, id) && Ids(first, id) !! seen && Ids(more, id) <= seen + Ids(first, id)
    ensures Survivors(Duplicate, first + more, seen, id) == first
    decreases |first| + |more|
  {
    if first == [] {
      if more != [] {
        assert id(more[0]) in Ids(more, id) && first + more == more;
        var rest := more[0 := more[|more| - 1]][..|more| - 1];
        MovedLast(more);
        assert forall x :: x in rest ==> id(x) in Ids(more, id);
        DuplicatesLast([], rest, seen, id);
        assert [] + rest == rest;
      }
    } else {
      var x, rest := first[0], first[1..];
      assert id(x) in Ids(first, id);
      assert (first + more)[1..] == rest + more && first == [x] + rest;
      IdsOfOne(x, rest, id);
      forall y | y in rest ensures id(y) != id(x) {
        var i :| 0 <= i < |rest| && rest[i] == y;
        assert first[i + 1] == y;
      }
      DuplicatesLast(rest, more, seen + {id(x)}, id);
    }
  }

  lemma AroundTheNext(a: FolderDevice, b: FolderDevice, b': FolderDevice)
    requires a.id != b.id == b'.id
    ensures var list, id := [a, a, b, b'], IdOfFolderDevice;
            AreFirstAndLast(list, 2, 3, id) && Ids(list[..2], id) + Ids(list[4..], id) == {a.id}
  {
    var list := [a, a, b, b'];
    assert list[..2] == [a, a] && list[4..] == [];
    forall x ensures x in Ids([a, a], IdOfFolderDevice) <==> x == a.id {
      assert a in [a, a] && IdOfFolderDevice(a) == a.id;
    }
    assert Ids([], IdOfFolderDevice) == {};
  }

  /** It is not always the first entry that stays: if the list begins with a duplicate and ends with
      another entry for the next device, that one takes its place. */
  lemma NotAlwaysTheFirst(a: FolderDevice, b: FolderDevice, b': FolderDevice)
    requires a.id != b.id == b'.id && b != b'
    ensures !KeepsFirsts([a, a, b, b'], IdOfFolderDevice)
  {
    hide Survivors;
    hide Ids;
    hide AreFirstAndLast;
    var list := [a, a, b, b'];
    AroundTheNext(a, b, b');
    OneIsFirst(list, 2, 3, IdOfFolderDevice);
  }
}
