/**
 * Inbox segments and the tab-bar unread total
 * (farcaster-audio/stores/messageStore.ts).
 */
module Inbox {
  import opened JsStrings
  import opened Options

  type ConversationId = JsString

  datatype Conversation = Conversation(
    id: ConversationId,
    unreadCount: int,
    unreadMentionsCount: int,
    manuallyMarkedUnread: bool,
    muted: bool,
    pinned: bool,
    lastReadAt: int,
    peerLastReadAt: Option<int>)

  datatype InboxSlice = InboxSlice(
    ids: seq<ConversationId>,
    cursor: Option<JsString>,
    hasMore: bool,
    loadedAt: Option<int>)

  const EMPTY_SLICE := InboxSlice([], None, true, None)

  datatype InboxResponse = InboxResponse(
    items: seq<Conversation>,
    nextCursor: Option<JsString>,
    requestsCount: int,
    hasUnreadRequests: bool)

  datatype InboxPageMode = ReplaceInbox | MergeInbox | AppendInbox

  predicate Distinct<T(==)>(s: seq<T>) {
    forall i, j :: 0 <= i < j < |s| ==> s[i] != s[j]
  }

  /** `Array.from(new Set(ids))`: first occurrences, in order. */
  function UniqueIds(s: seq<ConversationId>): seq<ConversationId> {
    if s == [] then []
    else UniqueIds(s[..|s|-1]) + (if s[|s|-1] in s[..|s|-1] then [] else [s[|s|-1]])
  }

  lemma {:induction false} UniqueIdsAreDistinct(s: seq<ConversationId>)
    ensures Distinct(UniqueIds(s))
    ensures forall x :: x in UniqueIds(s) <==> x in s
  {
    if s != [] {
      UniqueIdsAreDistinct(s[..|s|-1]);
      assert s == s[..|s|-1] + [s[|s|-1]];
    }
  }

  function ConversationIds(items: seq<Conversation>): (r: seq<ConversationId>)
    ensures |r| == |items| && forall i :: 0 <= i < |r| ==> r[i] == items[i].id
  {
    seq(|items|, i requires 0 <= i < |items| => items[i].id)
  }

  /** `ids.filter((id) => !onPage.has(id))`. */
  function NotOnPage(s: seq<ConversationId>, page: seq<ConversationId>): seq<ConversationId> {
    if s == [] then []
    else (if s[0] in page then [] else [s[0]]) + NotOnPage(s[1..], page)
  }

  /** `applyInboxPage`. */
  function ApplyInboxPage(
    current: InboxSlice, response: InboxResponse, mode: InboxPageMode, now: int): InboxSlice
  {
    var pageIds := ConversationIds(response.items);
    var hasTail := current.loadedAt != None && current.ids != [];
    if mode == AppendInbox then
      InboxSlice(UniqueIds(current.ids + pageIds), response.nextCursor, response.nextCursor != None, Some(now))
    else if mode == ReplaceInbox || response.nextCursor == None || !hasTail then
      InboxSlice(UniqueIds(pageIds), response.nextCursor, response.nextCursor != None, Some(now))
    else
      InboxSlice(UniqueIds(pageIds + NotOnPage(current.ids, pageIds)), current.cursor, current.hasMore, Some(now))
  }

  // ---------------------------------------------------------------------
  // Order of the merged list
  // ---------------------------------------------------------------------

  ghost predicate Before<T>(s: seq<T>, x: T, y: T) {
    exists i, j :: 0 <= i < j < |s| && s[i] == x && s[j] == y
  }

  lemma {:induction false} UniqueOfAppendedDistinct(a: seq<ConversationId>, b: seq<ConversationId>)
    requires Distinct(b)
    requires forall x :: x in b ==> x !in a
    ensures UniqueIds(a + b) == UniqueIds(a) + b
  {
    if b == [] {
      assert a + b == a;
    } else {
      UniqueOfAppendedDistinct(a, b[..|b|-1]);
      assert (a + b)[..|a + b|-1] == a + b[..|b|-1];
      assert b[|b|-1] in b;
    }
  }

  lemma UniqueOfDistinct(s: seq<ConversationId>)
    requires Distinct(s)
    ensures UniqueIds(s) == s
  {
    UniqueOfAppendedDistinct([], s);
    assert [] + s == s;
  }

  lemma {:induction false} NotOnPageKeepsOrder(s: seq<ConversationId>, page: seq<ConversationId>)
    requires Distinct(s)
    ensures Distinct(NotOnPage(s, page))
    ensures forall x :: x in NotOnPage(s, page) <==> x in s && x !in page
    ensures forall x, y :: x !in page && y !in page ==>
      (Before(s, x, y) <==> Before(NotOnPage(s, page), x, y))
  {
    if s != [] {
      var rest := NotOnPage(s[1..], page);
      NotOnPageKeepsOrder(s[1..], page);
      assert s == [s[0]] + s[1..];
      forall x, y | x !in page && y !in page
        ensures Before(s, x, y) <==> Before(NotOnPage(s, page), x, y)
      {
        BeforeWithHead(s[0], s[1..], x, y);
        BeforeWithHead(s[0], rest, x, y);
        assert NotOnPage(s, page) == if s[0] in page then rest else [s[0]] + rest;
      }
    }
  }

  lemma BeforeWithHead<T>(head: T, tail: seq<T>, x: T, y: T)
    ensures Before([head] + tail, x, y) <==> (x == head && y in tail) || Before(tail, x, y)
  {
    var s := [head] + tail;
    if Before(s, x, y) {
      var i, j :| 0 <= i < j < |s| && s[i] == x && s[j] == y;
      assert tail[j-1] == y;
      if i > 0 { assert tail[i-1] == x; }
    }
    if x == head && y in tail {
      var j :| 0 <= j < |tail| && tail[j] == y;
      assert s[0] == x && s[j+1] == y;
    }
    if Before(tail, x, y) {
      var i, j :| 0 <= i < j < |tail| && tail[i] == x && tail[j] == y;
      assert s[i+1] == x && s[j+1] == y;
    }
  }

  lemma BeforeInSuffix<T>(a: seq<T>, b: seq<T>, x: T, y: T)
    requires x !in a && y !in a
    ensures Before(a + b, x, y) <==> Before(b, x, y)
  {
    var s := a + b;
    if Before(s, x, y) {
      var i, j :| 0 <= i < j < |s| && s[i] == x && s[j] == y;
      assert i >= |a| && j >= |a|;
      assert b[i - |a|] == x && b[j - |a|] == y;
    }
    if Before(b, x, y) {
      var i, j :| 0 <= i < j < |b| && b[i] == x && b[j] == y;
      assert s[i + |a|] == x && s[j + |a|] == y;
    }
  }

  /**
   * A background refresh of page one: its rows move to the top, in server
   * order; every loaded row survives; rows not on the page keep their order
   * below it; paging continues from where it was.
   */
  lemma MergingAPageKeepsTheLoadedTail(current: InboxSlice, response: InboxResponse, now: int)
    requires Distinct(current.ids)
    requires current.loadedAt != None && response.nextCursor != None && current.ids != []
    ensures var r := ApplyInboxPage(current, response, MergeInbox, now);
      var page := UniqueIds(ConversationIds(response.items));
      Distinct(r.ids) && page <= r.ids &&
      (forall id :: id in r.ids <==> id in current.ids || id in page) &&
      (forall x, y :: x !in page && y !in page ==> (Before(current.ids, x, y) <==> Before(r.ids, x, y))) &&
      r.cursor == current.cursor && r.hasMore == current.hasMore && r.loadedAt == Some(now)
  {
    var pageIds := ConversationIds(response.items);
    var page := UniqueIds(pageIds);
    var tail := NotOnPage(current.ids, pageIds);
    NotOnPageKeepsOrder(current.ids, pageIds);
    UniqueIdsAreDistinct(pageIds);
    UniqueIdsAreDistinct(pageIds + tail);
    UniqueOfAppendedDistinct(pageIds, tail);
    forall x, y | x !in page && y !in page
      ensures Before(current.ids, x, y) <==> Before(page + tail, x, y)
    {
      BeforeInSuffix(page, tail, x, y);
    }
  }

  /** `x` occurs in the list, before any `y`. */
  ghost predicate OccursFirst<T(!new)>(s: seq<T>, x: T, y: T) {
    exists i :: 0 <= i < |s| && s[i] == x && y !in s[..i + 1]
  }

  lemma OccursFirstInSnoc<T(!new)>(s: seq<T>, last: T, x: T, y: T)
    ensures OccursFirst(s + [last], x, y) <==>
      OccursFirst(s, x, y) || (last == x && x != y && y !in s)
  {
    var whole := s + [last];
    if OccursFirst(whole, x, y) {
      var i :| 0 <= i < |whole| && whole[i] == x && y !in whole[..i + 1];
      if i < |s| {
        assert whole[..i + 1] == s[..i + 1];
      } else {
        assert whole[..i + 1] == s + [last];
      }
    }
    if OccursFirst(s, x, y) {
      var i :| 0 <= i < |s| && s[i] == x && y !in s[..i + 1];
      assert whole[i] == x && whole[..i + 1] == s[..i + 1];
    }
    if last == x && x != y && y !in s {
      assert whole[|s|] == x && whole[..|s| + 1] == s + [last];
    }
  }

  lemma BeforeInSnoc<T>(s: seq<T>, last: T, x: T, y: T)
    ensures Before(s + [last], x, y) <==> Before(s, x, y) || (last == y && x in s)
  {
    var whole := s + [last];
    if Before(whole, x, y) {
      var i, j :| 0 <= i < j < |whole| && whole[i] == x && whole[j] == y;
      assert s[i] == x;
    }
    if Before(s, x, y) {
      var i, j :| 0 <= i < j < |s| && s[i] == x && s[j] == y;
      assert whole[i] == x && whole[j] == y;
    }
    if last == y && x in s {
      var i :| 0 <= i < |s| && s[i] == x;
      assert whole[i] == x && whole[|s|] == y;
    }
  }

  /** Deduplication keeps the order in which the ids first occur. */
  lemma {:induction false} UniqueKeepsOrder(s: seq<ConversationId>, x: ConversationId, y: ConversationId)
    requires x in s && y in s
    ensures Before(UniqueIds(s), x, y) <==> OccursFirst(s, x, y)
  {
    var front, last := s[..|s|-1], s[|s|-1];
    assert s == front + [last];
    UniqueIdsAreDistinct(front);
    UniqueOfSnoc(front, last);
    OccursFirstInSnoc(front, last, x, y);
    if x in front && y in front {
      UniqueKeepsOrder(front, x, y);
      if last in front {
        assert UniqueIds(s) == UniqueIds(front);
      } else {
        BeforeInSnoc(UniqueIds(front), last, x, y);
        assert UniqueIds(s) == UniqueIds(front) + [last];
      }
    } else {
      assert (x in front || x == last) && (y in front || y == last);
      assert last !in front && UniqueIds(s) == UniqueIds(front) + [last];
      BeforeInSnoc(UniqueIds(front), last, x, y);
      NotBeforeUnlessBoth(UniqueIds(front), x, y);
      OneOccursFirst(front, x, y);
    }
  }

  lemma NotBeforeUnlessBoth<T>(s: seq<T>, x: T, y: T)
    ensures Before(s, x, y) ==> x in s && y in s
  {
  }

  lemma OneOccursFirst<T(!new)>(s: seq<T>, x: T, y: T)
    requires !(x in s && y in s)
    ensures OccursFirst(s, x, y) <==> x in s
  {
    if x in s {
      var i :| 0 <= i < |s| && s[i] == x;
      assert y !in s[..i + 1];
    }
  }

  /**
   * A replacing page, the whole inbox in one page, or the first page into an
   * inbox with nothing loaded: the list is the page, each id once, in the
   * page's order, and paging goes on from the page's cursor.
   */
  lemma ReplacingPageIsTheInbox(current: InboxSlice, response: InboxResponse, mode: InboxPageMode, now: int)
    requires mode != AppendInbox
    requires mode == ReplaceInbox || response.nextCursor == None || current.loadedAt == None || current.ids == []
    ensures var r := ApplyInboxPage(current, response, mode, now);
      var page := ConversationIds(response.items);
      Distinct(r.ids) && (forall id :: id in r.ids <==> id in page) &&
      (forall x, y :: x in page && y in page ==> (Before(r.ids, x, y) <==> OccursFirst(page, x, y))) &&
      (Distinct(page) ==> r.ids == page) &&
      r.cursor == response.nextCursor && r.hasMore == response.nextCursor.Some? && r.loadedAt == Some(now)
  {
    var page := ConversationIds(response.items);
    UniqueIdsAreDistinct(page);
    forall x, y | x in page && y in page
      ensures Before(UniqueIds(page), x, y) <==> OccursFirst(page, x, y)
    {
      UniqueKeepsOrder(page, x, y);
    }
    if Distinct(page) {
      UniqueOfDistinct(page);
    }
  }

  /** Paging on appends only rows not loaded yet, after everything loaded, and goes on from the page's cursor. */
  lemma AppendingAPageExtendsTheList(current: InboxSlice, response: InboxResponse, now: int)
    requires Distinct(current.ids)
    ensures var r := ApplyInboxPage(current, response, AppendInbox, now);
      Distinct(r.ids) && current.ids <= r.ids &&
      r.ids[|current.ids|..] == UniqueIds(NotOnPage(ConversationIds(response.items), current.ids)) &&
      (forall id :: id in r.ids <==> id in current.ids || id in ConversationIds(response.items)) &&
      r.cursor == response.nextCursor && r.hasMore == response.nextCursor.Some? && r.loadedAt == Some(now)
  {
    AppendUnique(current.ids, ConversationIds(response.items));
    UniqueIdsAreDistinct(current.ids + ConversationIds(response.items));
  }

  lemma {:induction false} AppendUnique(a: seq<ConversationId>, b: seq<ConversationId>)
    requires Distinct(a)
    ensures UniqueIds(a + b) == a + UniqueIds(NotOnPage(b, a))
  {
    if b == [] {
      assert a + b == a;
      UniqueOfDistinct(a);
    } else {
      var front, last := b[..|b|-1], b[|b|-1];
      AppendUnique(a, front);
      assert b == front + [last];
      assert a + b == (a + front) + [last];
      UniqueOfSnoc(a + front, last);
      NotOnPageOfAppend(front, last, a);
      InNotOnPage(front, a, last);
      UniqueOfSnoc(NotOnPage(front, a), last);
      KeptOrDropped(a, UniqueIds(NotOnPage(front, a)), last, last in a, last in front);
    }
  }

  lemma KeptOrDropped<T>(a: seq<T>, kept: seq<T>, last: T, inA: bool, inFront: bool)
    ensures (a + kept) + (if inA || inFront then [] else [last])
         == a + (if inA then kept else kept + (if inFront then [] else [last]))
  {
  }

  lemma {:induction false} InNotOnPage(s: seq<ConversationId>, page: seq<ConversationId>, x: ConversationId)
    ensures x in NotOnPage(s, page) <==> x in s && x !in page
  {
    if s != [] {
      InNotOnPage(s[1..], page, x);
      assert s == [s[0]] + s[1..];
    }
  }

  lemma UniqueOfSnoc(s: seq<ConversationId>, last: ConversationId)
    ensures UniqueIds(s + [last]) == UniqueIds(s) + (if last in s then [] else [last])
  {
    assert (s + [last])[..|s + [last]|-1] == s;
  }

  lemma {:induction false} NotOnPageOfAppend(s: seq<ConversationId>, last: ConversationId, page: seq<ConversationId>)
    ensures NotOnPage(s + [last], page) ==
      if last in page then NotOnPage(s, page) else NotOnPage(s, page) + [last]
  {
    if s == [] {
      assert s + [last] == [last];
    } else {
      NotOnPageOfAppend(s[1..], last, page);
      assert (s + [last])[1..] == s[1..] + [last];
    }
  }

  // ---------------------------------------------------------------------
  // Unread total
  // ---------------------------------------------------------------------

  predicate IsConversationUnread(c: Conversation) {
    c.unreadCount > 0 || c.manuallyMarkedUnread
  }

  function UnreadOf(id: ConversationId, conversations: map<ConversationId, Conversation>): int {
    if id !in conversations || conversations[id].muted then 0
    else if conversations[id].unreadCount > 0 then conversations[id].unreadCount
    else if conversations[id].manuallyMarkedUnread then 1 else 0
  }

  function UnreadTotal(ids: seq<ConversationId>, conversations: map<ConversationId, Conversation>): int {
    if ids == [] then 0
    else UnreadTotal(ids[..|ids|-1], conversations) + UnreadOf(ids[|ids|-1], conversations)
  }

  /** `computeUnreadTotal`. */
  method ComputeUnreadTotal(ids: seq<ConversationId>, conversations: map<ConversationId, Conversation>)
    returns (total: int)
    ensures total == UnreadTotal(ids, conversations)
    ensures total > 0 <==> exists id | id in ids ::
      id in conversations && !conversations[id].muted && IsConversationUnread(conversations[id])
  {
    total := 0;
    for n := 0 to |ids|
      invariant total == UnreadTotal(ids[..n], conversations)
      invariant total >= 0
      invariant total > 0 <==> exists id | id in ids[..n] ::
        id in conversations && !conversations[id].muted && IsConversationUnread(conversations[id])
    {
      assert ids[..n+1] == ids[..n] + [ids[n]];
      assert ids[..n+1][..n] == ids[..n];
      var id := ids[n];
      if id !in conversations || conversations[id].muted {
        continue;
      }
      if conversations[id].unreadCount > 0 {
        total := total + conversations[id].unreadCount;
      } else if conversations[id].manuallyMarkedUnread {
        total := total + 1;
      }
    }
    assert ids[..|ids|] == ids;
  }

  /** A changed read marker of the peer leaves the badge alone, so it needs no recount. */
  lemma {:induction false} UnreadTotalIgnoresReadMarkers(
    ids: seq<ConversationId>, conversations: map<ConversationId, Conversation>,
    id: ConversationId, at: Option<int>)
    requires id in conversations
    ensures UnreadTotal(ids, conversations[id := conversations[id].(peerLastReadAt := at)])
      == UnreadTotal(ids, conversations)
  {
    if ids != [] {
      UnreadTotalIgnoresReadMarkers(ids[..|ids|-1], conversations, id, at);
    }
  }
}
