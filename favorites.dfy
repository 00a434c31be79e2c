/**
 * The browser-side favourite-channel list kept in localStorage under
 * `tubecome-favorites` (src/utils/favorites.ts).  The storage slot is a
 * field of a class; JSON text is abstracted to what `JSON.parse` makes of it.
 */
module Favorites {

  const FavoritesKey := "tubecome-favorites"

  /**
   * What `localStorage.getItem(FavoritesKey)` holds, seen through `JSON.parse`:
   * nothing (null or the empty string), text that does not parse, or a list.
   */
  datatype Slot = Missing | Unparsable | Holds(list: seq<string>)

  /** `getFavorites`: anything but a parsed list reads as the empty list. */
  function GetFavorites(slot: Slot): (list: seq<string>)
    ensures slot.Missing? || slot.Unparsable? ==> list == []
    ensures slot.Holds? ==> list == slot.list
  {
    match slot
    case Holds(l) => l
    case _ => []
  }

  predicate Distinct(list: seq<string>) {
    forall i, j :: 0 <= i < j < |list| ==> list[i] != list[j]
  }

  /** `a` can be obtained from `b` by deleting entries: relative order is kept. */
  predicate Subsequence(a: seq<string>, b: seq<string>)
    decreases |b|
  {
    if |a| == 0 then true
    else if |b| == 0 then false
    else if a[0] == b[0] then Subsequence(a[1..], b[1..])
    else Subsequence(a, b[1..])
  }

  /** The list `addFavorite` saves: the channel in front, when it was absent. */
  function Added(list: seq<string>, channel: string): (r: seq<string>)
    ensures channel in r
    ensures channel !in list ==> |r| == |list| + 1 && r[0] == channel && r[1..] == list
    ensures channel in list ==> r == list
  {
    if channel in list then list else [channel] + list
  }

  /** `list.filter(c => c !== channel)`. */
  function Removed(list: seq<string>, channel: string): (r: seq<string>)
    ensures channel !in r
    ensures forall x :: x != channel ==> multiset(r)[x] == multiset(list)[x]
  {
    if |list| == 0 then []
    else
      assert list == [list[0]] + list[1..];
      if list[0] == channel then Removed(list[1..], channel)
      else [list[0]] + Removed(list[1..], channel)
  }

  lemma {:induction false} AddedKeepsDistinct(list: seq<string>, channel: string)
    requires Distinct(list)
    ensures Distinct(Added(list, channel))
  {
    var r := Added(list, channel);
    if channel !in list {
      forall i, j | 0 <= i < j < |r| ensures r[i] != r[j] {
        if i == 0 {
          assert r[j] == list[j - 1];
        } else {
          assert r[i] == list[i - 1] && r[j] == list[j - 1];
        }
      }
    }
  }

  /** Adding an absent channel and removing it again gives back the list. */
  lemma {:induction false} RemoveUndoesAdd(list: seq<string>, channel: string)
    requires channel !in list
    ensures Removed(Added(list, channel), channel) == list
  {
    assert ([channel] + list)[1..] == list;
    RemovedAbsent(list, channel);
  }

  /** Removing an absent channel leaves the list as it was. */
  lemma {:induction false} RemovedAbsent(list: seq<string>, channel: string)
    requires channel !in list
    ensures Removed(list, channel) == list
    decreases |list|
  {
    if |list| > 0 {
      assert channel !in list[1..];
      RemovedAbsent(list[1..], channel);
      assert list == [list[0]] + list[1..];
    }
  }

  /** The entries that remain keep their relative order. */
  lemma {:induction false} RemovedKeepsOrder(list: seq<string>, channel: string)
    ensures Subsequence(Removed(list, channel), list)
    decreases |list|
  {
    if |list| > 0 {
      RemovedKeepsOrder(list[1..], channel);
      if list[0] != channel {
        var r := Removed(list, channel);
        assert r[1..] == Removed(list[1..], channel);
      } else {
        SkipHead(Removed(list[1..], channel), list);
      }
    }
  }

  lemma {:induction false} SkipHead(a: seq<string>, b: seq<string>)
    requires |b| > 0 && Subsequence(a, b[1..])
    ensures Subsequence(a, b)
    decreases |b|, 1
  {
    if |a| > 0 && a[0] == b[0] {
      SubsequenceTail(a, b[1..]);
    }
  }

  lemma {:induction false} SubsequenceTail(a: seq<string>, b: seq<string>)
    requires |a| > 0 && Subsequence(a, b)
    ensures Subsequence(a[1..], b)
    decreases |b|, 2
  {
    if a[0] == b[0] {
      if |a| > 1 {
        SkipHead(a[1..], b);
      }
    } else {
      SubsequenceTail(a, b[1..]);
      SkipHead(a[1..], b);
    }
  }

  lemma {:induction false} RemovedKeepsDistinct(list: seq<string>, channel: string)
    requires Distinct(list)
    ensures Distinct(Removed(list, channel))
  {
    var r := Removed(list, channel);
    forall i, j | 0 <= i < j < |r| ensures r[i] != r[j] {
      if r[i] == r[j] {
        var x := r[i];
        assert x != channel;
        assert multiset(r)[x] >= 2 by {
          assert r == r[..j] + r[j..];
          assert x in r[..j];
          assert multiset(r) == multiset(r[..j]) + multiset(r[j..]);
        }
        AtMostOnce(list, x);
        assert false;
      }
    }
  }

  lemma {:induction false} AtMostOnce(list: seq<string>, x: string)
    requires Distinct(list)
    ensures multiset(list)[x] <= 1
    decreases |list|
  {
    if |list| > 0 {
      assert list == [list[0]] + list[1..];
      AtMostOnce(list[1..], x);
      if list[0] == x {
        assert x !in list[1..] by {
          forall k | 0 <= k < |list[1..]| ensures list[1..][k] != x {
            assert list[1..][k] == list[k + 1];
          }
        }
      }
    }
  }

  /** The localStorage slot together with the `favorites-changed` events it has sent. */
  class FavoritesStore {
    var slot: Slot
    var events: nat

    constructor (slot: Slot)
      ensures this.slot == slot && events == 0
    {
      this.slot := slot;
      events := 0;
    }

    function Favorites(): seq<string>
      reads this
    {
      GetFavorites(slot)
    }

    /**
     * `saveFavorites`: when the write is accepted the slot holds the list and
     * one event is sent; a rejected write is swallowed and changes nothing.
     */
    method Save(list: seq<string>, writeOk: bool)
      modifies this
      ensures writeOk ==> slot == Holds(list) && events == old(events) + 1
      ensures !writeOk ==> slot == old(slot) && events == old(events)
      ensures writeOk ==> Favorites() == list
    {
      if writeOk {
        slot := Holds(list);
        events := events + 1;
      }
    }

    /** `addFavorite`: unshift and save only when the channel is absent. */
    method AddFavorite(channel: string, writeOk: bool)
      modifies this
      ensures channel in old(Favorites()) ==> slot == old(slot) && events == old(events)
      ensures channel !in old(Favorites()) && writeOk ==>
        slot == Holds(Added(old(Favorites()), channel)) && events == old(events) + 1
      ensures channel !in old(Favorites()) && !writeOk ==> slot == old(slot) && events == old(events)
      ensures writeOk ==> Favorites() == Added(old(Favorites()), channel)
      ensures !writeOk ==> Favorites() == old(Favorites())
    {
      var list := GetFavorites(slot);
      if channel !in list {
        list := [channel] + list;
        Save(list, writeOk);
      }
    }

    /** `removeFavorite`: filter out the channel and always save. */
    method RemoveFavorite(channel: string, writeOk: bool)
      modifies this
      ensures writeOk ==> slot == Holds(Removed(old(Favorites()), channel)) && events == old(events) + 1
      ensures !writeOk ==> slot == old(slot) && events == old(events)
      ensures writeOk ==> Favorites() == Removed(old(Favorites()), channel)
    {
      var list := Removed(GetFavorites(slot), channel);
      Save(list, writeOk);
    }
  }
}
