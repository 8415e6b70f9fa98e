/** The two scans the item handlers run over a playlist's `items`: the duplicate test
    of POST /playlists/:id/items and the filter of DELETE /playlists/:id/items/:mediaId. */
module Items {
  import opened Outcomes
  import opened PlaylistSchema

  /** `items.some(item => item.mediaId === mediaId)`. */
  function HasMedia(items: seq<Item>, mediaId: Option<string>): (b: bool)
    ensures b <==> exists k :: 0 <= k < |items| && items[k].mediaId == mediaId
  {
    if items == [] then false
    else if items[0].mediaId == mediaId then true
    else
      var b := HasMedia(items[1..], mediaId);
      assert forall k :: 1 <= k < |items| ==> items[k] == items[1..][k - 1];
      b
  }

  /** `item.mediaId === mediaId` between a stored String path and a value as sent:
      no cast, so a number never equals a string. */
  predicate StrictlyEqual(stored: Option<string>, sent: Option<Json>) {
    match sent
    case None => stored.None?
    case Some(JStr(s)) => stored == Some(s)
    case Some(JNum(_)) => false
  }

  /** `items.some(item => item.mediaId === mediaId)` with `mediaId` exactly as sent. */
  predicate HasSentMedia(items: seq<Item>, sent: Option<Json>) {
    exists k :: 0 <= k < |items| && StrictlyEqual(items[k].mediaId, sent)
  }

  /** For a string or absent mediaId, comparing as sent and comparing after the cast agree. */
  lemma SentStringMatchesCast(items: seq<Item>, sent: Option<Json>)
    ensures sent.None? || sent.value.JStr? ==> (HasSentMedia(items, sent) <==> HasMedia(items, CastString(sent)))
  {
    if sent.None? || sent.value.JStr? {
      assert forall k :: 0 <= k < |items| ==> (StrictlyEqual(items[k].mediaId, sent) <==> items[k].mediaId == CastString(sent));
    }
  }

  /** `items.filter(item => item.mediaId !== mediaId)`: every item with another mediaId,
      each as often as before, and none with this one. */
  function WithoutMedia(items: seq<Item>, mediaId: Option<string>): (r: seq<Item>)
    ensures |r| <= |items|
    ensures forall it :: it in r <==> it in items && it.mediaId != mediaId
  {
    if items == [] then []
    else
      var rest := WithoutMedia(items[1..], mediaId);
      if items[0].mediaId == mediaId then rest else [items[0]] + rest
  }

  /** The filter keeps every item with another mediaId exactly as often as it occurred. */
  lemma {:induction false} WithoutMediaCounts(items: seq<Item>, mediaId: Option<string>, it: Item)
    ensures multiset(WithoutMedia(items, mediaId))[it] == if it.mediaId == mediaId then 0 else multiset(items)[it]
    decreases |items|
  {
    if items != [] {
      assert items == [items[0]] + items[1..];
      WithoutMediaCounts(items[1..], mediaId, it);
    }
  }

  /** No two items of a playlist share a mediaId. */
  predicate DistinctMediaIds(items: seq<Item>) {
    forall i, j :: 0 <= i < j < |items| ==> items[i].mediaId != items[j].mediaId
  }

  /** The filter keeps order: filtering a concatenation filters each part in place. */
  lemma {:induction false} WithoutMediaConcat(a: seq<Item>, b: seq<Item>, mediaId: Option<string>)
    ensures WithoutMedia(a + b, mediaId) == WithoutMedia(a, mediaId) + WithoutMedia(b, mediaId)
    decreases |a|
  {
    if a == [] {
      assert a + b == b;
    } else {
      var head := if a[0].mediaId == mediaId then [] else [a[0]];
      assert (a + b)[0] == a[0] && (a + b)[1..] == a[1..] + b;
      assert WithoutMedia(a + b, mediaId) == head + WithoutMedia(a[1..] + b, mediaId);
      WithoutMediaConcat(a[1..], b, mediaId);
      assert head + (WithoutMedia(a[1..], mediaId) + WithoutMedia(b, mediaId))
          == (head + WithoutMedia(a[1..], mediaId)) + WithoutMedia(b, mediaId);
    }
  }

  /** Removing a mediaId that no item carries leaves the items as they were. */
  lemma {:induction false} WithoutAbsentMedia(items: seq<Item>, mediaId: Option<string>)
    requires !HasMedia(items, mediaId)
    ensures WithoutMedia(items, mediaId) == items
    decreases |items|
  {
    if items != [] {
      WithoutAbsentMedia(items[1..], mediaId);
    }
  }

  /** Removing the same mediaId twice is the same as removing it once. */
  lemma WithoutMediaIdempotent(items: seq<Item>, mediaId: Option<string>)
    ensures WithoutMedia(WithoutMedia(items, mediaId), mediaId) == WithoutMedia(items, mediaId)
  {
    var r := WithoutMedia(items, mediaId);
    assert forall k :: 0 <= k < |r| ==> r[k] in r;
    WithoutAbsentMedia(r, mediaId);
  }

  /** Removing a freshly appended item's mediaId gives back the items from before the append. */
  lemma RemoveUndoesAppend(items: seq<Item>, it: Item)
    requires !HasMedia(items, it.mediaId)
    ensures WithoutMedia(items + [it], it.mediaId) == items
  {
    WithoutMediaConcat(items, [it], it.mediaId);
    WithoutAbsentMedia(items, it.mediaId);
    assert WithoutMedia([it], it.mediaId) == [];
  }

  /** Appending an item whose mediaId is not there yet keeps the mediaIds distinct. */
  lemma AppendKeepsDistinct(items: seq<Item>, it: Item)
    requires DistinctMediaIds(items) && !HasMedia(items, it.mediaId)
    ensures DistinctMediaIds(items + [it])
  {
  }

  /** Filtering keeps the mediaIds distinct. */
  lemma {:induction false} WithoutMediaKeepsDistinct(items: seq<Item>, mediaId: Option<string>)
    requires DistinctMediaIds(items)
    ensures DistinctMediaIds(WithoutMedia(items, mediaId))
    decreases |items|
  {
    if items != [] {
      var tail := items[1..];
      WithoutMediaKeepsDistinct(tail, mediaId);
      var rest := WithoutMedia(tail, mediaId);
      if items[0].mediaId != mediaId {
        forall k | 0 <= k < |rest|
          ensures rest[k].mediaId != items[0].mediaId
        {
          assert rest[k] in tail;
          var j :| 0 <= j < |tail| && tail[j] == rest[k];
          assert items[j + 1] == rest[k];
        }
        assert WithoutMedia(items, mediaId) == [items[0]] + rest;
      }
    }
  }

  /** With distinct mediaIds the filter drops at most one item. */
  lemma {:induction false} RemovesAtMostOne(items: seq<Item>, mediaId: Option<string>)
    requires DistinctMediaIds(items)
    ensures |WithoutMedia(items, mediaId)| >= |items| - 1
    decreases |items|
  {
    if items != [] {
      var tail := items[1..];
      if items[0].mediaId == mediaId {
        assert forall k :: 0 <= k < |tail| ==> tail[k] == items[k + 1];
        WithoutAbsentMedia(tail, mediaId);
      } else {
        RemovesAtMostOne(tail, mediaId);
      }
    }
  }
}
