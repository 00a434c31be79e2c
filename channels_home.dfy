/**
 * The channel list on the home screen (src/components/channel/ChannelsHome.tsx):
 * drag-and-drop reordering, the background new-video counts, the favourite
 * toggle and the choice of channels whose title still has to be resolved.
 * The new-video counter and the persisted channel order are inputs and
 * outputs of the model; the IndexedDB calls themselves are not modelled.
 */
module ChannelsHome {
  import opened Common
  import opened ChannelId
  import Favorites

  datatype Channel = Channel(id: string, title: Option<string>, lastVisited: Option<int>)

  /** `items.findIndex(c => c.id === id)`: the first index with that id, or -1. */
  function FindIndex(items: seq<Channel>, id: string): (i: int)
    ensures -1 <= i < |items|
    ensures i >= 0 ==> items[i].id == id
    ensures forall k :: 0 <= k < |items| && (i == -1 || k < i) ==> items[k].id != id
  {
    if |items| == 0 then -1
    else if items[0].id == id then 0
    else
      var j := FindIndex(items[1..], id);
      if j == -1 then -1 else j + 1
  }

  /** `items.map(c => c.id)`. */
  function Ids(items: seq<Channel>): (ids: seq<string>)
    ensures |ids| == |items|
    ensures forall k :: 0 <= k < |items| ==> ids[k] == items[k].id
  {
    seq(|items|, k requires 0 <= k < |items| => items[k].id)
  }

  /** `splice(from, 1)` followed by `splice(to, 0, moved)` on a copy of `s`. */
  function Moved<T>(s: seq<T>, from: nat, to: nat): seq<T>
    requires from < |s| && to < |s|
  {
    var rest := s[..from] + s[from + 1..];
    rest[..to] + [s[from]] + rest[to..]
  }

  /**
   * The reorder is a permutation that puts the dragged item at the target
   * index, and taking that item out again leaves the others in their old order.
   */
  lemma {:induction false} MovedIsReorder<T>(s: seq<T>, from: nat, to: nat)
    requires from < |s| && to < |s|
    ensures |Moved(s, from, to)| == |s|
    ensures Moved(s, from, to)[to] == s[from]
    ensures multiset(Moved(s, from, to)) == multiset(s)
    ensures Moved(s, from, to)[..to] + Moved(s, from, to)[to + 1..] == s[..from] + s[from + 1..]
  {
    var rest := s[..from] + s[from + 1..];
    var r := Moved(s, from, to);
    assert r[..to] == rest[..to];
    assert r[to + 1..] == rest[to..];
    assert rest[..to] + rest[to..] == rest;
    calc {
      multiset(r);
      multiset(rest[..to]) + multiset{s[from]} + multiset(rest[to..]);
      { assert rest[..to] + rest[to..] == rest; }
      multiset(rest) + multiset{s[from]};
      { assert s == s[..from] + [s[from]] + s[from + 1..]; }
      multiset(s);
    }
  }

  /** Moving an item to where it already is changes nothing. */
  lemma {:induction false} MovedInPlace<T>(s: seq<T>, i: nat)
    requires i < |s|
    ensures Moved(s, i, i) == s
  {
    assert (s[..i] + s[i + 1..])[..i] == s[..i];
    assert (s[..i] + s[i + 1..])[i..] == s[i + 1..];
    assert s == s[..i] + [s[i]] + s[i + 1..];
  }

  /** The record `fetchNewCounts` builds: a later channel overwrites an earlier one with the same id. */
  function NewCounts(list: seq<Channel>, count: (string, Option<int>) -> int): (r: map<string, int>)
    ensures forall id :: id in r ==> r[id] > 0
  {
    if |list| == 0 then map[]
    else
      var init := NewCounts(list[..|list| - 1], count);
      var ch := list[|list| - 1];
      var n := count(ch.id, ch.lastVisited);
      if n > 0 then init[ch.id := n] else init
  }

  /** A channel gets an entry iff some channel with its id had a positive count. */
  lemma {:induction false} NewCountsKeys(list: seq<Channel>, count: (string, Option<int>) -> int, id: string)
    ensures id in NewCounts(list, count) <==>
      exists k :: 0 <= k < |list| && list[k].id == id && count(id, list[k].lastVisited) > 0
    decreases |list|
  {
    if |list| > 0 {
      var init := list[..|list| - 1];
      NewCountsKeys(init, count, id);
      if id in NewCounts(init, count) {
        var k :| 0 <= k < |init| && init[k].id == id && count(id, init[k].lastVisited) > 0;
        assert list[k] == init[k];
      }
      if exists k :: 0 <= k < |list| && list[k].id == id && count(id, list[k].lastVisited) > 0 {
        var k :| 0 <= k < |list| && list[k].id == id && count(id, list[k].lastVisited) > 0;
        if k < |init| {
          assert init[k] == list[k];
        }
      }
    }
  }

  /** The recorded count of an id is the counter's answer for the last listed channel with
      that id whose count is positive. */
  lemma {:induction false} NewCountsValue(list: seq<Channel>, count: (string, Option<int>) -> int, k: nat)
    requires k < |list| && count(list[k].id, list[k].lastVisited) > 0
    requires forall j :: k < j < |list| && list[j].id == list[k].id ==> count(list[j].id, list[j].lastVisited) <= 0
    ensures list[k].id in NewCounts(list, count)
    ensures NewCounts(list, count)[list[k].id] == count(list[k].id, list[k].lastVisited)
    decreases |list|
  {
    var init := list[..|list| - 1];
    if k < |list| - 1 {
      assert init[k] == list[k];
      forall j | k < j < |init| && init[j].id == init[k].id
        ensures count(init[j].id, init[j].lastVisited) <= 0
      {
        assert init[j] == list[j];
      }
      NewCountsValue(init, count, k);
    }
  }

  /** The regular-expression test of the title resolver: missing title, or the id standing in for it. */
  predicate NeedsTitle(c: Channel) {
    (!Truthy(c.title) || c.title.value == c.id) && IsChannelId(c.id)
  }

  /** `channels.filter(...)` selecting the channels whose title is resolved. */
  function ToResolve(channels: seq<Channel>): (r: seq<Channel>)
    ensures |r| <= |channels|
    ensures forall c :: c in r <==> c in channels && NeedsTitle(c)
  {
    if |channels| == 0 then []
    else
      assert channels == [channels[0]] + channels[1..];
      (if NeedsTitle(channels[0]) then [channels[0]] else []) + ToResolve(channels[1..])
  }

  /** The favourite list after `toggleFav`, when the component's list matches storage. */
  function Toggled(list: seq<string>, id: string): seq<string> {
    if id in list then Favorites.Removed(list, id) else Favorites.Added(list, id)
  }

  /** Toggling flips the id's membership and leaves every other id where it was. */
  lemma {:induction false} ToggleFlips(list: seq<string>, id: string)
    ensures id in Toggled(list, id) <==> id !in list
    ensures forall x :: x != id ==> (x in Toggled(list, id) <==> x in list)
    ensures Favorites.Distinct(list) ==> Favorites.Distinct(Toggled(list, id))
  {
    if id in list {
      var r := Favorites.Removed(list, id);
      forall x | x != id ensures x in r <==> x in list {
        assert multiset(r)[x] == multiset(list)[x];
      }
      if Favorites.Distinct(list) {
        Favorites.RemovedKeepsDistinct(list, id);
      }
    } else if Favorites.Distinct(list) {
      Favorites.AddedKeepsDistinct(list, id);
    }
  }

  /** The component's state. */
  class Home {
    var channels: seq<Channel>
    var favorites: seq<string>
    var draggingId: Option<string>
    var dragOverId: Option<string>
    var newCounts: map<string, int>
    /** Every order handed to `setChannelsOrder`, oldest first. */
    var savedOrders: seq<seq<string>>
    const store: Favorites.FavoritesStore

    constructor (store: Favorites.FavoritesStore)
      ensures this.store == store && channels == [] && favorites == [] && newCounts == map[]
      ensures draggingId.None? && dragOverId.None? && savedOrders == []
    {
      this.store := store;
      channels := [];
      favorites := [];
      draggingId := None;
      dragOverId := None;
      newCounts := map[];
      savedOrders := [];
    }

    /**
     * `onDrop` onto the channel `id`; `transfer` is the drag payload, used
     * when no drag was started in this component.  `persistOk` is the outcome
     * of `setChannelsOrder`: when it rejects, the channels are already moved,
     * no order is saved and the drag state stays set.
     */
    method OnDrop(id: string, transfer: string, persistOk: bool)
      modifies this
      ensures newCounts == old(newCounts) && favorites == old(favorites)
      ensures var dragged := OrElse(old(draggingId), transfer);
        var from := FindIndex(old(channels), dragged);
        var to := FindIndex(old(channels), id);
        if dragged == "" then
          channels == old(channels) && draggingId == old(draggingId) &&
          dragOverId == old(dragOverId) && savedOrders == old(savedOrders)
        else if dragged == id then
          channels == old(channels) && draggingId.None? && dragOverId.None? && savedOrders == old(savedOrders)
        else if from == -1 || to == -1 then
          channels == old(channels) && draggingId == old(draggingId) &&
          dragOverId == old(dragOverId) && savedOrders == old(savedOrders)
        else if !persistOk then
          channels == Moved(old(channels), from, to) && savedOrders == old(savedOrders) &&
          draggingId == old(draggingId) && dragOverId == old(dragOverId)
        else
          channels == Moved(old(channels), from, to) &&
          savedOrders == old(savedOrders) + [Ids(channels)] &&
          draggingId.None? && dragOverId.None?
    {
      var dragged := OrElse(draggingId, transfer);
      if dragged == "" {
        return;
      }
      if dragged == id {
        draggingId := None;
        dragOverId := None;
        return;
      }
      var items := channels;
      var from := FindIndex(items, dragged);
      var to := FindIndex(items, id);
      if from == -1 || to == -1 {
        return;
      }
      var moved := items[from];
      items := items[..from] + items[from + 1..];
      items := items[..to] + [moved] + items[to..];
      channels := items;
      if !persistOk {
        return;
      }
      savedOrders := savedOrders + [Ids(items)];
      draggingId := None;
      dragOverId := None;
    }

    /** `fetchNewCounts`: ask the counter about each channel in turn and keep the positive counts. */
    method FetchNewCounts(list: seq<Channel>, count: (string, Option<int>) -> int)
      modifies this
      ensures newCounts == NewCounts(list, count)
      ensures channels == old(channels) && favorites == old(favorites) && savedOrders == old(savedOrders)
      ensures draggingId == old(draggingId) && dragOverId == old(dragOverId)
    {
      var counts: map<string, int> := map[];
      var i := 0;
      while i < |list|
        invariant i <= |list|
        invariant counts == NewCounts(list[..i], count)
      {
        var ch := list[i];
        var n := count(ch.id, ch.lastVisited);
        assert list[..i + 1][..i] == list[..i];
        if n > 0 {
          counts := counts[ch.id := n];
        }
        i := i + 1;
      }
      assert list[..i] == list;
      newCounts := counts;
    }

    /** `toggleFav`: remove when the component lists the id, add otherwise, then re-read storage. */
    method ToggleFav(id: string, writeOk: bool)
      modifies this, store
      ensures favorites == store.Favorites()
      ensures writeOk && old(favorites) == old(store.Favorites()) ==> favorites == Toggled(old(favorites), id)
      ensures channels == old(channels) && newCounts == old(newCounts) && savedOrders == old(savedOrders)
      ensures draggingId == old(draggingId) && dragOverId == old(dragOverId)
      ensures !writeOk ==> store.slot == old(store.slot) && store.events == old(store.events)
      ensures writeOk && id in old(favorites) ==>
        store.slot == Favorites.Holds(Favorites.Removed(old(store.Favorites()), id))
      ensures writeOk && id !in old(favorites) && id !in old(store.Favorites()) ==>
        store.slot == Favorites.Holds(Favorites.Added(old(store.Favorites()), id))
      ensures id !in old(favorites) && id in old(store.Favorites()) ==>
        store.slot == old(store.slot) && store.events == old(store.events)
    {
      if id in favorites {
        store.RemoveFavorite(id, writeOk);
      } else {
        store.AddFavorite(id, writeOk);
      }
      favorites := store.Favorites();
    }
  }
}
