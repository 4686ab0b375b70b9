/** The two-stage sort of the discovery feed (farcaster-audio/hooks/mergeDiscoverySpaces.ts). */
module Discovery {
  import opened Options
  import opened Spaces
  import opened StableSorting

  datatype DiscoverySpace = Juke(room: Room) | Native(space: NativeSpace)

  /** `raw ? Date.parse(raw) : NaN`, 0 unless finite. */
  function Millis(raw: Option<Stamp>): int {
    if raw.Some? && raw.value.At? then raw.value.ms else 0
  }

  function TimestampOf(item: DiscoverySpace): int {
    match item
    case Juke(room) =>
      Millis(if room.status == Active then room.startedAt else OrElse(room.scheduledAt, room.startedAt))
    case Native(space) =>
      Millis(if space.state == Active then OrElse(space.startedAt, space.scheduledAt)
             else OrElse(space.scheduledAt, space.startedAt))
  }

  predicate IsLive(item: DiscoverySpace) {
    match item
    case Juke(room) => room.status == Active
    case Native(space) => space.state == Active
  }

  /** The comparators, as "sorts strictly before". */
  predicate Newer(a: DiscoverySpace, b: DiscoverySpace) {
    TimestampOf(a) > TimestampOf(b)
  }

  predicate LiveThenNewer(a: DiscoverySpace, b: DiscoverySpace) {
    if IsLive(a) != IsLive(b) then IsLive(a) else Newer(a, b)
  }

  // ---------------------------------------------------------------------
  // The merge
  // ---------------------------------------------------------------------

  function AsJuke(rooms: seq<Room>): seq<DiscoverySpace> {
    seq(|rooms|, i requires 0 <= i < |rooms| => Juke(rooms[i]))
  }

  function AsNative(spaces: seq<NativeSpace>): seq<DiscoverySpace> {
    seq(|spaces|, i requires 0 <= i < |spaces| => Native(spaces[i]))
  }

  /** `mergeDiscoverySpaces`: sort each half by time, join, sort again. */
  function MergeDiscoverySpaces(jukeLive: seq<Room>, jukeScheduled: seq<Room>,
                                farcasterLive: seq<NativeSpace>, farcasterScheduled: seq<NativeSpace>)
    : seq<DiscoverySpace>
  {
    var live := StableSort(AsJuke(jukeLive) + AsNative(farcasterLive), Newer);
    var scheduled := StableSort(AsJuke(jukeScheduled) + AsNative(farcasterScheduled), Newer);
    StableSort(live + scheduled, LiveThenNewer)
  }

  /** The four inputs one after the other. */
  function Plain(jukeLive: seq<Room>, jukeScheduled: seq<Room>,
                 farcasterLive: seq<NativeSpace>, farcasterScheduled: seq<NativeSpace>)
    : seq<DiscoverySpace>
  {
    AsJuke(jukeLive) + AsNative(farcasterLive) + (AsJuke(jukeScheduled) + AsNative(farcasterScheduled))
  }

  lemma ComparatorsAreConsistent()
    ensures IsConsistent(Newer) && IsConsistent(LiveThenNewer)
  {
  }

  /** Whatever the four lists hold, both stages together are one stable sort of the plain concatenation. */
  lemma MergeIsOneStableSort(jukeLive: seq<Room>, jukeScheduled: seq<Room>,
                             farcasterLive: seq<NativeSpace>, farcasterScheduled: seq<NativeSpace>)
    ensures MergeDiscoverySpaces(jukeLive, jukeScheduled, farcasterLive, farcasterScheduled)
         == StableSort(Plain(jukeLive, jukeScheduled, farcasterLive, farcasterScheduled), LiveThenNewer)
  {
    ComparatorsAreConsistent();
    var front := AsJuke(jukeLive) + AsNative(farcasterLive);
    var back := AsJuke(jukeScheduled) + AsNative(farcasterScheduled);
    var staged := StableSort(front, Newer) + StableSort(back, Newer);
    StableSortIsStable(staged, LiveThenNewer);
    StableSortIsStable(front + back, LiveThenNewer);
    forall x: DiscoverySpace
      ensures TiedWith(staged, x, LiveThenNewer) == TiedWith(front + back, x, LiveThenNewer)
    {
      TiedWithSplits(StableSort(front, Newer), StableSort(back, Newer), x, LiveThenNewer);
      TiedWithSplits(front, back, x, LiveThenNewer);
      SortKeepsFinerTies(front, x, Newer, LiveThenNewer);
      SortKeepsFinerTies(back, x, Newer, LiveThenNewer);
    }
    StableSortsAreEqual(StableSort(staged, LiveThenNewer), StableSort(front + back, LiveThenNewer), LiveThenNewer);
  }

  /** Nothing is lost or invented, live rooms come first, and each part is newest-first. */
  lemma MergeIsOrdered(jukeLive: seq<Room>, jukeScheduled: seq<Room>,
                       farcasterLive: seq<NativeSpace>, farcasterScheduled: seq<NativeSpace>)
    ensures var merged := MergeDiscoverySpaces(jukeLive, jukeScheduled, farcasterLive, farcasterScheduled);
      multiset(merged) == multiset(Plain(jukeLive, jukeScheduled, farcasterLive, farcasterScheduled)) &&
      forall i, j :: 0 <= i < j < |merged| ==>
        (IsLive(merged[j]) ==> IsLive(merged[i])) &&
        (IsLive(merged[i]) == IsLive(merged[j]) ==> TimestampOf(merged[i]) >= TimestampOf(merged[j]))
  {
    MergeIsOneStableSort(jukeLive, jukeScheduled, farcasterLive, farcasterScheduled);
    ComparatorsAreConsistent();
    StableSortIsStable(Plain(jukeLive, jukeScheduled, farcasterLive, farcasterScheduled), LiveThenNewer);
  }

  // ---------------------------------------------------------------------
  // Which upcoming room comes first
  // ---------------------------------------------------------------------

  /** The soonest-upcoming room surfaces first: rooms that are not live are listed by ascending time. */
  ghost predicate SoonestFirst(merged: seq<DiscoverySpace>) {
    forall i, j :: 0 <= i < j < |merged| && !IsLive(merged[i]) && !IsLive(merged[j]) ==>
      TimestampOf(merged[i]) <= TimestampOf(merged[j])
  }

  ghost predicate UpcomingAtOneTime(items: seq<DiscoverySpace>) {
    forall x, y :: x in items && y in items && !IsLive(x) && !IsLive(y) ==> TimestampOf(x) == TimestampOf(y)
  }

  lemma DescendingIsSoonestFirstIff(merged: seq<DiscoverySpace>, items: seq<DiscoverySpace>)
    requires multiset(merged) == multiset(items)
    requires forall i, j :: 0 <= i < j < |merged| && IsLive(merged[i]) == IsLive(merged[j]) ==>
      TimestampOf(merged[i]) >= TimestampOf(merged[j])
    ensures SoonestFirst(merged) <==> UpcomingAtOneTime(items)
  {
    assert forall x :: x in merged <==> x in multiset(merged);
    assert forall x :: x in items <==> x in multiset(items);
    if SoonestFirst(merged) {
      forall x, y | x in items && y in items && !IsLive(x) && !IsLive(y)
        ensures TimestampOf(x) == TimestampOf(y)
      {
        var i :| 0 <= i < |merged| && merged[i] == x;
        var j :| 0 <= j < |merged| && merged[j] == y;
      }
    }
    if UpcomingAtOneTime(items) {
      forall i, j | 0 <= i < j < |merged| && !IsLive(merged[i]) && !IsLive(merged[j])
        ensures TimestampOf(merged[i]) <= TimestampOf(merged[j])
      {
        assert merged[i] in items && merged[j] in items;
      }
    }
  }

  /** The feed lists the soonest-upcoming room first exactly when the upcoming rooms all have one time. */
  lemma SoonestFirstIff(jukeLive: seq<Room>, jukeScheduled: seq<Room>,
                        farcasterLive: seq<NativeSpace>, farcasterScheduled: seq<NativeSpace>)
    ensures SoonestFirst(MergeDiscoverySpaces(jukeLive, jukeScheduled, farcasterLive, farcasterScheduled)) <==>
      UpcomingAtOneTime(Plain(jukeLive, jukeScheduled, farcasterLive, farcasterScheduled))
  {
    MergeIsOrdered(jukeLive, jukeScheduled, farcasterLive, farcasterScheduled);
    DescendingIsSoonestFirstIff(MergeDiscoverySpaces(jukeLive, jukeScheduled, farcasterLive, farcasterScheduled),
                                Plain(jukeLive, jukeScheduled, farcasterLive, farcasterScheduled));
  }

  /** Two scheduled rooms at different times, listed soonest first, come out latest first. */
  lemma LaterRoomComesFirst(soon: Room, late: Room)
    requires soon.status == Scheduled && late.status == Scheduled
    requires soon.scheduledAt == Some(At(1)) && late.scheduledAt == Some(At(2))
    ensures MergeDiscoverySpaces([], [soon, late], [], []) == [Juke(late), Juke(soon)]
  {
    var a, b := Juke(soon), Juke(late);
    var plain := Plain([], [soon, late], [], []);
    assert plain == [a, b];
    MergeIsOneStableSort([], [soon, late], [], []);
    ComparatorsAreConsistent();
    assert LiveThenNewer(b, a);
    assert [a, b][1..] == [b] && [b][1..] == [];
    assert StableSort([b], LiveThenNewer) == [b];
    assert Insert(a, [b], LiveThenNewer) == [b] + Insert(a, [], LiveThenNewer);
  }

  // ---------------------------------------------------------------------
  // Which time counts
  // ---------------------------------------------------------------------

  /** An active room counts from its start, any other from its schedule or else its start; no readable time is 0. */
  lemma TimeThatCounts(room: Room, space: NativeSpace)
    ensures room.status == Active && room.startedAt.Some? && room.startedAt.value.At? ==>
      TimestampOf(Juke(room)) == room.startedAt.value.ms
    ensures room.status == Active && (room.startedAt == None || room.startedAt.value.Unreadable?) ==>
      TimestampOf(Juke(room)) == 0
    ensures room.status != Active && room.scheduledAt.Some? && room.scheduledAt.value.At? ==>
      TimestampOf(Juke(room)) == room.scheduledAt.value.ms
    ensures room.status != Active && room.scheduledAt.Some? && room.scheduledAt.value.Unreadable? ==>
      TimestampOf(Juke(room)) == 0
    ensures room.status != Active && room.scheduledAt == None ==>
      TimestampOf(Juke(room)) == TimestampOf(Juke(room.(status := Active)))
    ensures space.state == Active && space.startedAt.Some? && space.startedAt.value.At? ==>
      TimestampOf(Native(space)) == space.startedAt.value.ms
    ensures space.state != Active && space.scheduledAt.Some? && space.scheduledAt.value.At? ==>
      TimestampOf(Native(space)) == space.scheduledAt.value.ms
    ensures space.state == Active && space.startedAt.Some? && space.startedAt.value.Unreadable? ==>
      TimestampOf(Native(space)) == 0
    ensures space.startedAt == None || space.scheduledAt == None ==>
      TimestampOf(Native(space.(state := Active))) == TimestampOf(Native(space.(state := Scheduled)))
  {
  }

  predicate IsActiveRoom(item: DiscoverySpace) {
    (item.Juke? && item.room.status == Active) || (item.Native? && item.space.state == Active)
  }

  /** Every active room, of either kind, is listed before every other. */
  lemma ActiveRoomsComeFirst(jukeLive: seq<Room>, jukeScheduled: seq<Room>,
                             farcasterLive: seq<NativeSpace>, farcasterScheduled: seq<NativeSpace>, i: nat, j: nat)
    requires var merged := MergeDiscoverySpaces(jukeLive, jukeScheduled, farcasterLive, farcasterScheduled);
      i < j < |merged| && IsActiveRoom(merged[j])
    ensures IsActiveRoom(MergeDiscoverySpaces(jukeLive, jukeScheduled, farcasterLive, farcasterScheduled)[i])
  {
    MergeIsOrdered(jukeLive, jukeScheduled, farcasterLive, farcasterScheduled);
  }
}
