/**
 * The "furthest comment viewed" tracker of the video page
 * (src/components/SaveVideoStats.tsx).  Visibility reports, the firing of the
 * two-second save timer and the component's teardown are explicit events;
 * each save is recorded as the number handed to `saveViewedCommentNumber`.
 */
module SaveVideoStats {
  import opened Common
  import JsNumber

  /** One intersection report: whether the element is visible and its `data-comment-num`. */
  datatype Entry = Entry(isIntersecting: bool, commentNum: Option<string>)

  /** The comment number of an element: a missing or empty attribute counts as 0; `None` is NaN. */
  function CommentNumber(attr: Option<string>): Option<int> {
    if Truthy(attr) then JsNumber.ParseInt(attr.value, 10) else Some(0)
  }

  /** The number is `parseInt(attr || '0', 10)`. */
  lemma {:induction false} CommentNumberIsParse(attr: Option<string>)
    ensures CommentNumber(attr) == JsNumber.ParseInt(OrElse(attr, "0"), 10)
  {
    if !Truthy(attr) {
      JsNumber.ParseIntOfString(0);
      assert JsNumber.NumberToString(0) == "0";
    }
  }

  /** Whether an entry raises the maximum `m`: visible, a number, and larger. */
  predicate Raises(e: Entry, m: int) {
    e.isIntersecting && CommentNumber(e.commentNum).Some? && CommentNumber(e.commentNum).value > m
  }

  /** The maximum after a batch of reports, starting from `m`. */
  function MaxAfter(m: int, entries: seq<Entry>): (r: int)
    ensures r >= m
    ensures r == m || exists k :: 0 <= k < |entries| && Raises(entries[k], m) && r == CommentNumber(entries[k].commentNum).value
    ensures forall k :: 0 <= k < |entries| && entries[k].isIntersecting && CommentNumber(entries[k].commentNum).Some? ==>
      CommentNumber(entries[k].commentNum).value <= r
    decreases |entries|
  {
    if |entries| == 0 then m
    else
      var e := entries[0];
      var m' := if Raises(e, m) then CommentNumber(e.commentNum).value else m;
      var r := MaxAfter(m', entries[1..]);
      assert forall k :: 1 <= k < |entries| ==> entries[k] == entries[1..][k - 1];
      r
  }

  class Tracker {
    /** `maxViewedRef.current`. */
    var maxViewed: int
    /** `saveTimerRef.current`: the last timer handle scheduled; never reset. */
    var timerRef: Option<nat>
    /** Timers scheduled and neither fired nor cleared. */
    var pending: set<nat>
    var nextHandle: nat
    /** Values handed to `saveViewedCommentNumber`, in order. */
    var saves: seq<int>

    /** At most one timer is ever pending, and it is the one the ref holds. */
    predicate Valid()
      reads this
    {
      (forall h :: h in pending ==> timerRef == Some(h)) &&
      (timerRef.Some? ==> timerRef.value < nextHandle)
    }

    constructor ()
      ensures Valid() && maxViewed == 0 && timerRef.None? && pending == {} && saves == []
    {
      maxViewed := 0;
      timerRef := None;
      pending := {};
      nextHandle := 0;
      saves := [];
    }

    /** One report: a larger visible comment number raises the maximum and restarts the save timer. */
    method Observe(e: Entry)
      requires Valid()
      modifies this
      ensures Valid()
      ensures saves == old(saves)
      ensures Raises(e, old(maxViewed)) ==>
        maxViewed == CommentNumber(e.commentNum).value && timerRef == Some(old(nextHandle)) && pending == {old(nextHandle)}
        && nextHandle == old(nextHandle) + 1
      ensures !Raises(e, old(maxViewed)) ==>
        maxViewed == old(maxViewed) && timerRef == old(timerRef) && pending == old(pending) && nextHandle == old(nextHandle)
    {
      if e.isIntersecting {
        var n := CommentNumber(e.commentNum);
        if n.Some? && n.value > maxViewed {
          maxViewed := n.value;
          if timerRef.Some? {
            pending := pending - {timerRef.value};
          }
          timerRef := Some(nextHandle);
          pending := pending + {nextHandle};
          nextHandle := nextHandle + 1;
        }
      }
    }

    /** The observer callback: the reports of one batch in order. */
    method ObserveBatch(entries: seq<Entry>)
      requires Valid()
      modifies this
      ensures Valid()
      ensures saves == old(saves)
      ensures maxViewed == MaxAfter(old(maxViewed), entries)
      ensures MaxAfter(old(maxViewed), entries) == old(maxViewed) ==> timerRef == old(timerRef) && pending == old(pending)
      ensures MaxAfter(old(maxViewed), entries) != old(maxViewed) ==> timerRef.Some? && pending == {timerRef.value}
      ensures MaxAfter(old(maxViewed), entries) != old(maxViewed) ==> old(nextHandle) <= timerRef.value < nextHandle
      ensures nextHandle >= old(nextHandle)
    {
      var i := 0;
      while i < |entries|
        invariant i <= |entries| && Valid()
        invariant saves == old(saves)
        invariant MaxAfter(maxViewed, entries[i..]) == MaxAfter(old(maxViewed), entries)
        invariant maxViewed == old(maxViewed) ==> timerRef == old(timerRef) && pending == old(pending)
        invariant maxViewed != old(maxViewed) ==> timerRef.Some? && pending == {timerRef.value}
        invariant maxViewed >= old(maxViewed) && nextHandle >= old(nextHandle)
        invariant maxViewed != old(maxViewed) ==> old(nextHandle) <= timerRef.value
      {
        assert entries[i..][1..] == entries[i + 1..];
        Observe(entries[i]);
        i := i + 1;
      }
    }

    /** The save timer `h` fires: if still pending, the current maximum is saved. */
    method Fire(h: nat)
      requires Valid()
      modifies this
      ensures Valid()
      ensures maxViewed == old(maxViewed) && timerRef == old(timerRef) && nextHandle == old(nextHandle)
      ensures h in old(pending) ==> saves == old(saves) + [maxViewed] && pending == {}
      ensures h !in old(pending) ==> saves == old(saves) && pending == old(pending)
    {
      if h in pending {
        saves := saves + [maxViewed];
        pending := pending - {h};
      }
    }

    /** Teardown: a timer was ever scheduled, so clear it and save a positive maximum once more. */
    method Teardown()
      requires Valid()
      modifies this
      ensures Valid() && pending == {}
      ensures maxViewed == old(maxViewed) && timerRef == old(timerRef) && nextHandle == old(nextHandle)
      ensures saves == old(saves) + (if timerRef.Some? && maxViewed > 0 then [maxViewed] else [])
    {
      if timerRef.Some? {
        pending := {};
        if maxViewed > 0 {
          saves := saves + [maxViewed];
        }
      }
    }
  }
}
