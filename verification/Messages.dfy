/**
 * Direct Cast messages and the newest-first merge behind every thread window
 * (farcaster-audio/stores/messageStore.ts, farcaster-audio/types/messages.ts).
 */
module Messages {
  import opened JsStrings
  import opened Options

  type MessageId = JsString

  datatype SendState = Sending | Failed

  datatype Quote = Quote(id: MessageId, senderFid: int, text: JsString)

  datatype Reaction = Reaction(reaction: JsString, count: int, viewerReacted: bool)

  /** `sendState` is `None` on a server copy; only unconfirmed local rows carry one. */
  datatype Message = Message(
    id: MessageId,
    conversationId: JsString,
    senderFid: int,
    text: JsString,
    sentAt: int,
    reactions: seq<Reaction>,
    inReplyTo: Option<Quote>,
    metadata: Option<JsString>,
    isDeleted: bool,
    isLastRead: bool,
    sendState: Option<SendState>)

  /** The comparator handed to `Array.prototype.sort`. */
  function CompareNewestFirst(a: Message, b: Message): int {
    if a.sentAt != b.sentAt then b.sentAt - a.sentAt
    else if Less(a.id, b.id) then 1 else -1
  }

  /** What the comparator means for rows with different ids: `a` belongs above `b`. */
  predicate Newer(a: Message, b: Message) {
    a.sentAt > b.sentAt || (a.sentAt == b.sentAt && Less(b.id, a.id))
  }

  predicate DistinctIds(s: seq<Message>) {
    forall i, j :: 0 <= i < j < |s| ==> s[i].id != s[j].id
  }

  predicate NewestFirst(s: seq<Message>) {
    forall i, j :: 0 <= i < j < |s| ==> Newer(s[i], s[j])
  }

  /** What every thread window is: strictly newest-first, one row per id. */
  predicate IsWindow(s: seq<Message>) {
    NewestFirst(s) && DistinctIds(s)
  }

  // ---------------------------------------------------------------------
  // The order
  // ---------------------------------------------------------------------

  lemma NewerIsTotal(a: Message, b: Message)
    requires a.id != b.id
    ensures Newer(a, b) <==> !Newer(b, a)
    ensures Newer(a, b) <==> CompareNewestFirst(a, b) < 0
  {
    LessIsTotal(a.id, b.id);
    if Less(a.id, b.id) {
      LessIsAsymmetric(a.id, b.id);
    } else {
      LessIsAsymmetric(b.id, a.id);
    }
  }

  lemma NewerIsTransitive(a: Message, b: Message, c: Message)
    requires Newer(a, b) && Newer(b, c)
    ensures Newer(a, c)
  {
    if a.sentAt == b.sentAt == c.sentAt {
      LessIsTransitive(c.id, b.id, a.id);
    }
  }

  lemma NewerIsIrreflexive(a: Message)
    ensures !Newer(a, a)
  {
    LessIsIrreflexive(a.id);
  }

  // ---------------------------------------------------------------------
  // Array.prototype.sort with that comparator
  // ---------------------------------------------------------------------

  function InsertNewest(m: Message, s: seq<Message>): (r: seq<Message>) {
    if s == [] || CompareNewestFirst(m, s[0]) < 0 then [m] + s
    else [s[0]] + InsertNewest(m, s[1..])
  }

  function SortNewest(s: seq<Message>): (r: seq<Message>) {
    if s == [] then [] else InsertNewest(s[0], SortNewest(s[1..]))
  }

  lemma {:induction false} InsertNewestElements(m: Message, s: seq<Message>)
    ensures |InsertNewest(m, s)| == |s| + 1
    ensures forall x :: x in InsertNewest(m, s) <==> x == m || x in s
  {
    if !(s == [] || CompareNewestFirst(m, s[0]) < 0) {
      InsertNewestElements(m, s[1..]);
      assert s == [s[0]] + s[1..];
    }
  }

  lemma {:induction false} InsertNewestKeepsWindow(m: Message, s: seq<Message>)
    requires IsWindow(s)
    requires forall x :: x in s ==> x.id != m.id
    ensures IsWindow(InsertNewest(m, s))
  {
    if s != [] {
      NewerIsTotal(m, s[0]);
      if CompareNewestFirst(m, s[0]) < 0 {
        forall j | 0 < j < |s| ensures Newer(m, s[j]) {
          NewerIsTransitive(m, s[0], s[j]);
        }
      } else {
        InsertNewestKeepsWindow(m, s[1..]);
        var rest := InsertNewest(m, s[1..]);
        InsertNewestElements(m, s[1..]);
        forall j | 0 <= j < |rest| ensures Newer(s[0], rest[j]) && s[0].id != rest[j].id {
          assert rest[j] in rest;
          assert rest[j] == m || rest[j] in s[1..];
        }
      }
    }
  }

  lemma {:induction false} SortNewestIsWindow(s: seq<Message>)
    requires DistinctIds(s)
    ensures IsWindow(SortNewest(s))
    ensures forall x :: x in SortNewest(s) <==> x in s
  {
    if s != [] {
      SortNewestIsWindow(s[1..]);
      assert s == [s[0]] + s[1..];
      InsertNewestElements(s[0], SortNewest(s[1..]));
      InsertNewestKeepsWindow(s[0], SortNewest(s[1..]));
    }
  }

  // ---------------------------------------------------------------------
  // A window is determined by its rows
  // ---------------------------------------------------------------------

  lemma {:induction false} WindowsWithSameRowsAreEqual(a: seq<Message>, b: seq<Message>)
    requires IsWindow(a) && IsWindow(b)
    requires forall x :: x in a <==> x in b
    ensures a == b
  {
    assert a != [] ==> a[0] in b;
    assert b != [] ==> b[0] in a;
    if a != [] {
      SameNewestRow(a, b);
      forall x ensures x in a[1..] <==> x in b[1..] {
        RowsBelowTheTop(a, x);
        RowsBelowTheTop(b, x);
      }
      WindowsWithSameRowsAreEqual(a[1..], b[1..]);
      assert a == [a[0]] + a[1..] && b == [b[0]] + b[1..];
    }
  }

  lemma SameNewestRow(a: seq<Message>, b: seq<Message>)
    requires IsWindow(a) && IsWindow(b) && a != [] && b != []
    requires forall x :: x in a <==> x in b
    ensures a[0] == b[0]
  {
    assert a[0] in b && b[0] in a;
    var i :| 0 <= i < |b| && b[i] == a[0];
    var j :| 0 <= j < |a| && a[j] == b[0];
    if i > 0 && j > 0 {
      NewerIsTransitive(a[0], a[j], a[0]);
      NewerIsIrreflexive(a[0]);
    }
  }

  lemma RowsBelowTheTop(s: seq<Message>, x: Message)
    requires DistinctIds(s) && s != []
    ensures x in s[1..] <==> x in s && x != s[0]
  {
    assert s == [s[0]] + s[1..];
  }

  // ---------------------------------------------------------------------
  // mergeById: a right-biased map union, sorted
  // ---------------------------------------------------------------------

  /** The `Map` filled by `set` in list order: the last row of an id wins. */
  function ById(s: seq<Message>): map<MessageId, Message> {
    if s == [] then map[] else ById(s[..|s|-1])[s[|s|-1].id := s[|s|-1]]
  }

  lemma {:induction false} ByIdRows(s: seq<Message>)
    ensures forall id :: id in ById(s) ==> ById(s)[id].id == id && ById(s)[id] in s
    ensures ById(s).Keys == Ids(s)
  {
    if s != [] {
      ByIdRows(s[..|s|-1]);
      assert s == s[..|s|-1] + [s[|s|-1]];
    }
  }

  function Without(s: seq<Message>, id: MessageId): (r: seq<Message>)
    ensures forall x :: x in r <==> x in s && x.id != id
  {
    if s == [] then []
    else
      assert s == [s[0]] + s[1..];
      if s[0].id == id then Without(s[1..], id) else [s[0]] + Without(s[1..], id)
  }

  lemma TopRowIsNewest(s: seq<Message>)
    requires IsWindow(s) && s != []
    ensures IsWindow(s[1..])
    ensures forall x :: x in s[1..] ==> Newer(s[0], x) && s[0].id != x.id
  {
  }

  lemma TopRowKeepsWindow(m: Message, rest: seq<Message>)
    requires IsWindow(rest)
    requires forall x :: x in rest ==> Newer(m, x) && m.id != x.id
    ensures IsWindow([m] + rest)
  {
  }

  lemma {:induction false} WithoutKeepsWindow(s: seq<Message>, id: MessageId)
    requires IsWindow(s)
    ensures IsWindow(Without(s, id))
  {
    if s != [] {
      WithoutKeepsWindow(s[1..], id);
      TopRowIsNewest(s);
      if s[0].id != id {
        TopRowKeepsWindow(s[0], Without(s[1..], id));
      }
    }
  }

  ghost function Ids(s: seq<Message>): set<MessageId> {
    set m | m in s :: m.id
  }

  /** `replaceMessage`: `[message, ...without].sort(compareNewestFirst)`. */
  function ReplaceMessage(s: seq<Message>, m: Message): (r: seq<Message>) {
    SortNewest([m] + Without(s, m.id))
  }

  lemma ReplaceMessageIsWindow(s: seq<Message>, m: Message)
    requires IsWindow(s)
    ensures IsWindow(ReplaceMessage(s, m))
    ensures forall x :: x in ReplaceMessage(s, m) <==> x == m || (x in s && x.id != m.id)
  {
    WithoutKeepsWindow(s, m.id);
    var rest := Without(s, m.id);
    forall j | 0 <= j < |rest| ensures m.id != rest[j].id {
      assert rest[j] in rest;
    }
    SortNewestIsWindow([m] + rest);
  }

  /** The value of `mergeById([], s)`, adding one row at a time. */
  function Window(s: seq<Message>): (r: seq<Message>)
  {
    if s == [] then [] else ReplaceMessage(Window(s[..|s|-1]), s[|s|-1])
  }

  /** `Window(s)` is exactly the sorted values of the `Map` filled from `s`. */
  lemma {:induction false} WindowIsSortedUnion(s: seq<Message>)
    ensures IsWindow(Window(s))
    ensures forall x :: x in Window(s) <==> x.id in ById(s) && ById(s)[x.id] == x
  {
    if s != [] {
      WindowIsSortedUnion(s[..|s|-1]);
      ReplaceMessageIsWindow(Window(s[..|s|-1]), s[|s|-1]);
    }
  }

  lemma {:induction false} ByIdOfConcat(a: seq<Message>, b: seq<Message>)
    ensures ById(a + b) == ById(a) + ById(b)
  {
    if b == [] {
      assert a + b == a;
    } else {
      var last := b[|b|-1];
      ByIdOfConcat(a, b[..|b|-1]);
      assert (a + b)[..|a + b|-1] == a + b[..|b|-1];
    }
  }

  lemma {:induction false} ByIdOfWindow(s: seq<Message>)
    ensures ById(Window(s)) == ById(s)
  {
    WindowIsSortedUnion(s);
    ByIdRows(s);
    var w := Window(s);
    ByIdRows(w);
    forall id ensures id in ById(w) <==> id in ById(s) {
      if id in ById(s) {
        assert ById(s)[id] in w;
      }
    }
    forall id | id in ById(w) ensures ById(w)[id] == ById(s)[id] {
      assert ById(w)[id] in w;
    }
  }

  lemma WindowOfWindowIsItself(s: seq<Message>)
    requires IsWindow(s)
    ensures Window(s) == s
  {
    WindowIsSortedUnion(s);
    ByIdRows(s);
    forall x ensures x in Window(s) <==> x in s {
      if x in s {
        assert x.id in Ids(s) && ById(s)[x.id] in s;
      }
    }
    WindowsWithSameRowsAreEqual(Window(s), s);
  }

  lemma WindowDependsOnlyOnTheMap(s: seq<Message>, t: seq<Message>)
    requires ById(s) == ById(t)
    ensures Window(s) == Window(t)
  {
    WindowIsSortedUnion(s);
    WindowIsSortedUnion(t);
    WindowsWithSameRowsAreEqual(Window(s), Window(t));
  }

  /**
   * Merging one page after another gives the window that merging all rows at
   * once gives: the incremental window never depends on how pages were cut.
   */
  lemma MergingPagewiseIsMergingAtOnce(existing: seq<Message>, page: seq<Message>, next: seq<Message>)
    ensures Window(Window(existing + page) + next) == Window(existing + page + next)
  {
    var both := existing + page;
    ByIdOfConcat(Window(both), next);
    ByIdOfConcat(both, next);
    ByIdOfWindow(both);
    WindowDependsOnlyOnTheMap(Window(both) + next, both + next);
  }

  lemma DisjointUnionCommutes<K, V>(m: map<K, V>, a: map<K, V>, b: map<K, V>)
    requires a.Keys !! b.Keys
    ensures m + a + b == m + b + a
  {
  }

  /** Two pages with no id in common may land in either order. */
  lemma DisjointPagesCommute(existing: seq<Message>, a: seq<Message>, b: seq<Message>)
    requires Ids(a) !! Ids(b)
    ensures Window(existing + a + b) == Window(existing + b + a)
  {
    ByIdOfConcat(existing + a, b);
    ByIdOfConcat(existing, a);
    ByIdOfConcat(existing + b, a);
    ByIdOfConcat(existing, b);
    ByIdRows(a);
    ByIdRows(b);
    DisjointUnionCommutes(ById(existing), ById(a), ById(b));
    WindowDependsOnlyOnTheMap(existing + a + b, existing + b + a);
  }

  /**
   * `mergeById` as written: two loops fill an insertion-ordered `Map`
   * (`keys` is its order), whose values are then sorted.
   */
  method MergeById(existing: seq<Message>, incoming: seq<Message>) returns (r: seq<Message>)
    ensures r == Window(existing + incoming)
  {
    var byId, keys := SetAll(map[], [], existing);
    assert [] + existing == existing;
    byId, keys := SetAll(byId, keys, incoming);
    var values := seq(|keys|, i requires 0 <= i < |keys| => byId[keys[i]]);
    r := SortNewest(values);
    ByIdOfConcat(existing, incoming);
    ValuesOfMap(byId, keys, values);
    SortNewestIsWindow(values);
    WindowIsSortedUnion(existing + incoming);
    WindowsWithSameRowsAreEqual(r, Window(existing + incoming));
  }

  lemma ValuesOfMap(byId: map<MessageId, Message>, keys: seq<MessageId>, values: seq<Message>)
    requires IsInsertionOrder(byId, keys)
    requires |values| == |keys| && forall i :: 0 <= i < |keys| ==> values[i] == byId[keys[i]]
    ensures DistinctIds(values)
    ensures forall x :: x in values <==> x.id in byId && byId[x.id] == x
  {
    assert forall i :: 0 <= i < |keys| ==> keys[i] in byId && values[i].id == keys[i];
    forall x: Message | x.id in byId && byId[x.id] == x ensures x in values {
      var i :| 0 <= i < |keys| && keys[i] == x.id;
      assert values[i] == x;
    }
  }

  /** A `Map` of rows by their ids, with its keys in insertion order. */
  ghost predicate IsInsertionOrder(byId: map<MessageId, Message>, keys: seq<MessageId>) {
    (forall id :: id in byId <==> id in keys) &&
    (forall i, j :: 0 <= i < j < |keys| ==> keys[i] != keys[j]) &&
    (forall id :: id in byId ==> byId[id].id == id)
  }

  lemma NextEntry(start: map<MessageId, Message>, rows: seq<Message>, n: nat)
    requires n < |rows|
    ensures start + ById(rows[..n+1]) == (start + ById(rows[..n]))[rows[n].id := rows[n]]
  {
    assert rows[..n+1][..n] == rows[..n];
  }

  lemma EntryKeepsOrder(byId: map<MessageId, Message>, keys: seq<MessageId>, row: Message)
    requires IsInsertionOrder(byId, keys)
    ensures IsInsertionOrder(byId[row.id := row], if row.id in byId then keys else keys + [row.id])
  {
  }

  /** `for (const message of rows) byId.set(message.message_id, message)`. */
  method SetAll(start: map<MessageId, Message>, order: seq<MessageId>, rows: seq<Message>)
    returns (byId: map<MessageId, Message>, keys: seq<MessageId>)
    requires IsInsertionOrder(start, order)
    ensures byId == start + ById(rows) && IsInsertionOrder(byId, keys)
  {
    byId, keys := start, order;
    for n := 0 to |rows|
      invariant byId == start + ById(rows[..n]) && IsInsertionOrder(byId, keys)
    {
      NextEntry(start, rows, n);
      EntryKeepsOrder(byId, keys, rows[n]);
      if rows[n].id !in byId {
        keys := keys + [rows[n].id];
      }
      byId := byId[rows[n].id := rows[n]];
    }
    assert rows[..|rows|] == rows;
  }

  // ---------------------------------------------------------------------
  // Server copies
  // ---------------------------------------------------------------------

  /** `toServerCopy`: drop the client-only send state. */
  function ToServerCopy(m: Message): Message {
    m.(sendState := None)
  }

  function ServerCopies(s: seq<Message>): (r: seq<Message>)
    ensures |r| == |s|
    ensures forall i :: 0 <= i < |s| ==> r[i] == ToServerCopy(s[i])
  {
    seq(|s|, i requires 0 <= i < |s| => ToServerCopy(s[i]))
  }

  /** `mergeMessages`. */
  function MergeMessages(existing: seq<Message>, incoming: seq<Message>): (r: seq<Message>) {
    Window(existing + ServerCopies(incoming))
  }

  /** Merging server pages one by one gives the window that merging them together gives. */
  lemma MergingPagesIsMergingTheirUnion(existing: seq<Message>, page: seq<Message>, next: seq<Message>)
    ensures MergeMessages(MergeMessages(existing, page), next) == MergeMessages(existing, page + next)
  {
    var a, b := ServerCopies(page), ServerCopies(next);
    assert existing + ServerCopies(page + next) == existing + a + b by {
      CopiesOfConcat(page, next);
    }
    MergingPagewiseIsMergingAtOnce(existing, a, b);
  }

  lemma CopiesOfConcat(a: seq<Message>, b: seq<Message>)
    ensures ServerCopies(a + b) == ServerCopies(a) + ServerCopies(b)
  {
  }

  /**
   * Incoming server copies win and confirm any local copy of the same id;
   * every other row stays exactly as it was.
   */
  lemma MergeMessagesRows(existing: seq<Message>, incoming: seq<Message>)
    requires IsWindow(existing)
    ensures IsWindow(MergeMessages(existing, incoming))
    ensures Ids(MergeMessages(existing, incoming)) == Ids(existing) + Ids(incoming)
    ensures forall x :: x in MergeMessages(existing, incoming) && x.id in Ids(incoming)
              ==> x.sendState == None && exists y :: y in incoming && x == ToServerCopy(y)
    ensures forall x: Message :: x.id !in Ids(incoming)
              ==> (x in MergeMessages(existing, incoming) <==> x in existing)
  {
    var copies := ServerCopies(incoming);
    var r := MergeMessages(existing, incoming);
    ByIdOfConcat(existing, copies);
    ByIdRows(existing);
    ByIdRows(copies);
    CopiesKeepIds(incoming);
    WindowIsSortedUnion(existing + copies);
    ByIdOfWindow(existing + copies);
    ByIdRows(r);
    forall x | x in r && x.id in Ids(incoming)
      ensures x.sendState == None && exists y :: y in incoming && x == ToServerCopy(y)
    {
      var i :| 0 <= i < |copies| && copies[i] == x;
      assert incoming[i] in incoming;
    }
    forall x: Message | x.id !in Ids(incoming) ensures x in r <==> x in existing {
      if x in existing {
        assert x.id in Ids(existing);
      }
    }
  }

  lemma CopiesKeepIds(s: seq<Message>)
    ensures Ids(ServerCopies(s)) == Ids(s)
  {
    var copies := ServerCopies(s);
    forall id ensures id in Ids(copies) <==> id in Ids(s) {
      if id in Ids(copies) {
        var i :| 0 <= i < |copies| && copies[i].id == id;
        assert s[i] in s;
      }
      if id in Ids(s) {
        var i :| 0 <= i < |s| && s[i].id == id;
        assert copies[i] in copies;
      }
    }
  }
}
