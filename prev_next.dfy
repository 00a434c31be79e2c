/**
 * The previous/next links of the video page (src/components/PrevNextClient.tsx):
 * the list of videos the user came from is read from session storage, and
 * the neighbours of the current video in it are shown.  The storage read and
 * JSON parse are an input: None when nothing usable is stored.
 */
module PrevNext {
  import opened Common

  /** One element of the stored list; both fields may be missing. */
  datatype Item = Item(id: Option<string>, title: Option<string>)

  /** The component's `prev` and `next` state. */
  datatype Neighbours = Neighbours(prev: Option<Item>, next: Option<Item>)

  const Initial: Neighbours := Neighbours(None, None)

  /** `list.findIndex(x => x.id === currentId)`. */
  function FindIndex(list: seq<Item>, currentId: string): (i: int)
    ensures -1 <= i < |list|
    ensures i >= 0 ==> list[i].id == Some(currentId)
    ensures forall k :: 0 <= k < |list| && (i == -1 || k < i) ==> list[k].id != Some(currentId)
  {
    if |list| == 0 then -1
    else if list[0].id == Some(currentId) then 0
    else
      var j := FindIndex(list[1..], currentId);
      if j == -1 then -1 else j + 1
  }

  /**
   * The effect run for `currentId`, starting from the state `s`: when the id
   * is in the stored list, the neighbours of its first occurrence; otherwise
   * the state is left as it was.
   */
  function Effect(s: Neighbours, stored: Option<seq<Item>>, currentId: string): (t: Neighbours)
    ensures stored.None? ==> t == s
    ensures stored.Some? && FindIndex(stored.value, currentId) == -1 ==> t == s
    ensures stored.Some? && FindIndex(stored.value, currentId) >= 0 ==>
      var list := stored.value;
      var i := FindIndex(list, currentId);
      (t.prev.Some? <==> i > 0) && (t.prev.Some? ==> t.prev.value == list[i - 1]) &&
      (t.next.Some? <==> i + 1 < |list|) && (t.next.Some? ==> t.next.value == list[i + 1])
  {
    match stored
    case None => s
    case Some(list) =>
      var i := FindIndex(list, currentId);
      if i < 0 then s
      else Neighbours(if i > 0 then Some(list[i - 1]) else None,
                      if i + 1 < |list| then Some(list[i + 1]) else None)
  }

  /** `if (!prev && !next) return null`. */
  predicate Renders(s: Neighbours) {
    s.prev.Some? || s.next.Some?
  }

  /**
   * From the initial state, links are shown exactly when the current video is
   * in a stored list of at least two videos.
   */
  lemma {:induction false} RendersIffNeighbour(stored: Option<seq<Item>>, currentId: string)
    ensures Renders(Effect(Initial, stored, currentId)) <==>
      stored.Some? && FindIndex(stored.value, currentId) >= 0 && |stored.value| >= 2
  {
  }

  /** The neighbours are those of the first occurrence, even when the id occurs again later. */
  lemma {:induction false} FirstOccurrenceWins(before: seq<Item>, current: Item, after: seq<Item>, currentId: string)
    requires current.id == Some(currentId)
    requires forall k :: 0 <= k < |before| ==> before[k].id != Some(currentId)
    ensures var list := before + [current] + after;
      FindIndex(list, currentId) == |before| &&
      Effect(Initial, Some(list), currentId).next == (if |after| > 0 then Some(after[0]) else None)
  {
    var list := before + [current] + after;
    var i := FindIndex(list, currentId);
    assert list[|before|] == current;
    assert forall k :: 0 <= k < |before| ==> list[k] == before[k];
    if |after| > 0 {
      assert list[|before| + 1] == after[0];
    }
  }
}
