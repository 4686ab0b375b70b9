/** Where the "New messages" separator goes (farcaster-audio/hooks/useConversation.ts). */
module ReadState {
  import opened JsStrings
  import opened Options

  /** A row of the window, newest first: `isIncoming` is received from someone else and confirmed. */
  datatype Row = Row(id: JsString, isIncoming: bool, isLastRead: bool)

  /** `findIndex((m) => m.is_last_read)`, the length standing for -1. */
  function LastReadIndex(rows: seq<Row>): (i: nat)
    ensures i <= |rows|
  {
    if rows == [] || rows[0].isLastRead then 0 else 1 + LastReadIndex(rows[1..])
  }

  function Incoming(rows: seq<Row>): seq<Row> {
    if rows == [] then []
    else (if rows[0].isIncoming then [rows[0]] else []) + Incoming(rows[1..])
  }

  /** `findUnreadSeparatorId`. */
  function FindUnreadSeparatorId(rows: seq<Row>, unreadCount: int): Option<JsString> {
    var lastRead := LastReadIndex(rows);
    if unreadCount <= 0 || (rows != [] && lastRead == 0) then None
    else
      var incoming := Incoming(rows[..lastRead]);
      if incoming == [] then None
      else if lastRead < |rows| then Some(incoming[|incoming| - 1].id)
      else
        var k := if unreadCount < |incoming| then unreadCount else |incoming|;
        Some(incoming[k - 1].id)
  }

  /** How many of the rows are incoming. */
  function CountIncoming(rows: seq<Row>): nat {
    if rows == [] then 0 else (if rows[0].isIncoming then 1 else 0) + CountIncoming(rows[1..])
  }

  /** No marker before `i`, and one at `i` if it is inside the list. */
  predicate IsFirstMarker(rows: seq<Row>, i: nat) {
    i <= |rows| && (forall j :: 0 <= j < i ==> !rows[j].isLastRead) && (i < |rows| ==> rows[i].isLastRead)
  }

  lemma {:induction false} LastReadIsFirstMarker(rows: seq<Row>, i: nat)
    ensures LastReadIndex(rows) == i <==> IsFirstMarker(rows, i)
  {
    if rows != [] && !rows[0].isLastRead && i > 0 {
      LastReadIsFirstMarker(rows[1..], i - 1);
      assert i <= |rows| ==> forall j :: 1 <= j < i ==> rows[j] == rows[1..][j - 1];
    } else if rows != [] {
      assert rows[0].isLastRead ==> LastReadIndex(rows) == 0;
    }
  }

  /** The `k`-th incoming row, by position: it is incoming, and `k` rows down to it are. */
  lemma {:induction false} NthIncoming(rows: seq<Row>, k: nat) returns (p: nat)
    requires 1 <= k <= |Incoming(rows)|
    ensures p < |rows| && rows[p] == Incoming(rows)[k - 1] && rows[p].isIncoming
    ensures CountIncoming(rows[..p + 1]) == k
  {
    var here := if rows[0].isIncoming then 1 else 0;
    if k <= here {
      p := 0;
      assert rows[..1][1..] == [];
    } else {
      var q := NthIncoming(rows[1..], k - here);
      p := q + 1;
      assert rows[..p + 1][1..] == rows[1..][..q + 1];
    }
  }

  lemma {:induction false} IncomingAreCounted(rows: seq<Row>)
    ensures |Incoming(rows)| == CountIncoming(rows)
  {
    if rows != [] {
      IncomingAreCounted(rows[1..]);
    }
  }

  /**
   * There is a separator exactly when something is unread and an incoming row is newer than the
   * read marker (any incoming row, if the marker is not in the window). It sits on an incoming row
   * above the marker; from the top down to it lie all the incoming rows above the marker, or, with
   * no marker in sight, as many as are unread, or all there are.
   */
  lemma SeparatorCountsTheUnread(rows: seq<Row>, unreadCount: int, marker: nat)
    requires IsFirstMarker(rows, marker)
    ensures FindUnreadSeparatorId(rows, unreadCount).Some? <==>
      unreadCount > 0 && CountIncoming(rows[..marker]) > 0
    ensures FindUnreadSeparatorId(rows, unreadCount).Some? ==>
      exists p: nat ::
        p < marker && rows[p].isIncoming && FindUnreadSeparatorId(rows, unreadCount) == Some(rows[p].id) &&
        CountIncoming(rows[..p + 1]) ==
          if marker < |rows| || unreadCount > CountIncoming(rows[..marker]) then CountIncoming(rows[..marker])
          else unreadCount
  {
    LastReadIsFirstMarker(rows, marker);
    var above := rows[..marker];
    IncomingAreCounted(above);
    if FindUnreadSeparatorId(rows, unreadCount).Some? {
      var all := CountIncoming(above);
      var k := if marker < |rows| || unreadCount > all then all else unreadCount;
      var p := NthIncoming(above, k);
      assert rows[..p + 1] == above[..p + 1];
      assert rows[p] == above[p];
    }
  }
}
