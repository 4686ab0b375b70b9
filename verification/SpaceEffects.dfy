/**
 * Which rooms the discovery lists keep, and what each action of the space
 * store does to them (farcaster-audio/stores/spaceStore.ts).
 */
module SpaceEffects {
  import opened JsStrings
  import opened Options
  import opened Spaces
  import opened UniqueItems
  import opened SpaceStore

  /** The two rooms are one: they mirror the same Farcaster room, or neither mirrors any and they share an id. */
  predicate IsSameRoom(a: Room, b: Room) {
    a.farcasterRoomId == b.farcasterRoomId && (a.farcasterRoomId == [] ==> a.id == b.id)
  }

  lemma SameKeySameRoom(a: Room, b: Room)
    ensures RoomKey(a) == RoomKey(b) <==> IsSameRoom(a, b)
  {
    assert RoomKey(a)[0] == (if a.farcasterRoomId != [] then 102 else 106);
    assert RoomKey(b)[0] == (if b.farcasterRoomId != [] then 102 else 106);
    assert a.farcasterRoomId != [] ==> RoomKey(a)[3..] == a.farcasterRoomId;
    assert b.farcasterRoomId != [] ==> RoomKey(b)[3..] == b.farcasterRoomId;
    assert a.farcasterRoomId == [] ==> RoomKey(a)[5..] == a.id;
    assert b.farcasterRoomId == [] ==> RoomKey(b)[5..] == b.id;
  }

  /** One of the rooms is this one. */
  predicate HasRoom(rooms: seq<Room>, room: Room) {
    exists r :: r in rooms && IsSameRoom(r, room)
  }

  predicate NoRoomTwice(rooms: seq<Room>) {
    forall i, j :: 0 <= i < j < |rooms| ==> !IsSameRoom(rooms[i], rooms[j])
  }

  lemma KeptRoom(rooms: seq<Room>, keep: Room -> bool, room: Room)
    ensures room in Unique(Filter(rooms, keep), RoomKey) ==> room in rooms && keep(room)
    ensures room in rooms && keep(room) ==> HasRoom(Unique(Filter(rooms, keep), RoomKey), room)
  {
    var kept := Unique(Filter(rooms, keep), RoomKey);
    FilterMembers(rooms, keep);
    UniqueIsDistinct(Filter(rooms, keep), RoomKey, {});
    if room in rooms && keep(room) {
      var first :| first in kept && RoomKey(first) == RoomKey(room);
      SameKeySameRoom(first, room);
    }
  }

  lemma KeptRoomsAreDistinct(rooms: seq<Room>)
    ensures NoRoomTwice(Unique(rooms, RoomKey))
  {
    var kept := Unique(rooms, RoomKey);
    UniqueIsDistinct(rooms, RoomKey, {});
    forall i, j | 0 <= i < j < |kept| ensures !IsSameRoom(kept[i], kept[j]) {
      SameKeySameRoom(kept[i], kept[j]);
    }
  }

  /** The live list holds exactly the active rooms of the given one, each once, mirrors and others alike. */
  lemma ActiveRoomsAreKept(lists: DiscoveryLists, nowMs: int)
    ensures var kept := NormalizeDiscoveryLists(lists, nowMs).activeLiveSpaces;
      (forall room :: room in kept ==> room in lists.activeLiveSpaces && room.status == Active) &&
      (forall room :: room in lists.activeLiveSpaces && room.status == Active ==> HasRoom(kept, room)) &&
      NoRoomTwice(kept)
  {
    KeptRoomsAreDistinct(Filter(lists.activeLiveSpaces, IsActive));
    var kept := NormalizeDiscoveryLists(lists, nowMs).activeLiveSpaces;
    forall room: Room
      ensures room in kept ==> room in lists.activeLiveSpaces && room.status == Active
      ensures room in lists.activeLiveSpaces && room.status == Active ==> HasRoom(kept, room)
    {
      KeptRoom(lists.activeLiveSpaces, IsActive, room);
    }
  }

  /** The scheduled time of a room lies in the past. */
  predicate HasPassed(scheduledAt: Option<Stamp>, nowMs: int) {
    match scheduledAt
    case Some(At(ms)) => ms <= nowMs
    case _ => false
  }

  /** The Farcaster room is live, hosted or native. */
  predicate IsLiveSomewhere(lists: DiscoveryLists, id: JsString) {
    HostedLive(lists, id) || NativeLive(lists, id)
  }

  /**
   * The scheduled list holds exactly the scheduled rooms whose time has not
   * passed and whose Farcaster room, if any, is not live already, each once.
   */
  lemma UpcomingRoomsAreKept(lists: DiscoveryLists, nowMs: int)
    ensures var kept := NormalizeDiscoveryLists(lists, nowMs).scheduledSpaces;
      (forall room :: room in kept ==> room in lists.scheduledSpaces && IsUpcomingRoom(lists, room, nowMs)) &&
      (forall room :: room in lists.scheduledSpaces && IsUpcomingRoom(lists, room, nowMs) ==> HasRoom(kept, room)) &&
      NoRoomTwice(kept)
  {
    var n := NormalizeDiscoveryLists(lists, nowMs);
    var mirrored := MirroredIds(n.activeLiveSpaces);
    var live := mirrored + NativeIds(n.farcasterLiveSpaces);
    var keep := UpcomingRoomUnlessIn(live, nowMs);
    KeptRoomsAreDistinct(Filter(lists.scheduledSpaces, keep));
    forall room: Room
      ensures room in n.scheduledSpaces ==> room in lists.scheduledSpaces && IsUpcomingRoom(lists, room, nowMs)
      ensures room in lists.scheduledSpaces && IsUpcomingRoom(lists, room, nowMs) ==> HasRoom(n.scheduledSpaces, room)
    {
      KeptRoom(lists.scheduledSpaces, keep, room);
      if room.farcasterRoomId != [] {
        LiveIds(lists, nowMs, room.farcasterRoomId);
      }
    }
  }

  predicate IsUpcomingRoom(lists: DiscoveryLists, room: Room, nowMs: int) {
    room.status == Scheduled && !HasPassed(room.scheduledAt, nowMs) &&
    (room.farcasterRoomId != [] ==> !IsLiveSomewhere(lists, room.farcasterRoomId))
  }

  lemma LiveIds(lists: DiscoveryLists, nowMs: int, id: JsString)
    requires id != []
    ensures var n := NormalizeDiscoveryLists(lists, nowMs);
      id in MirroredIds(n.activeLiveSpaces) + NativeIds(n.farcasterLiveSpaces) <==> IsLiveSomewhere(lists, id)
  {
    var n := NormalizeDiscoveryLists(lists, nowMs);
    MirroredAfterUnique(lists.activeLiveSpaces, IsActive, id);
    NativesAfterUnique(lists.farcasterLiveSpaces, LiveUnlessIn(MirroredIds(n.activeLiveSpaces)), id);
  }

  // ---------------------------------------------------------------------
  // Actions
  // ---------------------------------------------------------------------

  /** What a setter replaces before normalizing. */
  function Given(s: DiscoveryLists, a: Action): DiscoveryLists {
    match a
    case SetDiscoverySpaces(lists) => lists
    case SetActiveLiveSpaces(rooms) =>
      DiscoveryLists(rooms, s.scheduledSpaces, s.farcasterLiveSpaces, s.farcasterScheduledSpaces)
    case SetScheduledSpaces(rooms) =>
      DiscoveryLists(s.activeLiveSpaces, rooms, s.farcasterLiveSpaces, s.farcasterScheduledSpaces)
    case SetFarcasterLiveSpaces(spaces) =>
      DiscoveryLists(s.activeLiveSpaces, s.scheduledSpaces, spaces, s.farcasterScheduledSpaces)
    case SetFarcasterScheduledSpaces(spaces) =>
      DiscoveryLists(s.activeLiveSpaces, s.scheduledSpaces, s.farcasterLiveSpaces, spaces)
    case AddActiveLiveSpace(room) =>
      DiscoveryLists([room] + WithoutRoom(s.activeLiveSpaces, room.id), s.scheduledSpaces, s.farcasterLiveSpaces,
                     s.farcasterScheduledSpaces)
    case _ => s
  }

  /** Every setter normalizes the four lists with just its own replaced. */
  lemma SettersReplaceTheirList(s: DiscoveryLists, a: Action, nowMs: int)
    requires !a.RemoveActiveLiveSpace? && !a.Reset?
    ensures Step(s, a, nowMs) == NormalizeDiscoveryLists(Given(s, a), nowMs)
  {
    match a
    case SetActiveLiveSpaces(rooms) => assert s.(activeLiveSpaces := rooms) == Given(s, a);
    case _ =>
  }

  lemma {:induction false} FirstStaysFirst<T>(items: seq<T>, keep: T -> bool, key: T -> JsString)
    requires items != [] && keep(items[0])
    ensures Unique(Filter(items, keep), key) != [] && Unique(Filter(items, keep), key)[0] == items[0]
  {
    assert Filter(items, keep)[0] == items[0];
  }

  lemma OthersOfGiven(rooms: seq<Room>, room: Room, other: Room)
    ensures other in [room] + WithoutRoom(rooms, room.id) <==>
      other == room || (other in rooms && other.id != room.id)
  {
    FilterMembers(rooms, (r: Room) => r.id != room.id);
  }

  /** An active room that is added is listed first, nothing else of its id is, and the other active rooms stay. */
  lemma AddedRoomComesFirst(s: DiscoveryLists, room: Room, nowMs: int)
    requires room.status == Active
    ensures var t := Step(s, AddActiveLiveSpace(room), nowMs).activeLiveSpaces;
      t != [] && t[0] == room && (forall other :: other in t && other != room ==> other.id != room.id) &&
      (forall other :: other in s.activeLiveSpaces && other.status == Active && other.id != room.id ==>
        HasRoom(t, other))
  {
    var given := Given(s, AddActiveLiveSpace(room));
    SettersReplaceTheirList(s, AddActiveLiveSpace(room), nowMs);
    ActiveRoomsAreKept(given, nowMs);
    FirstStaysFirst(given.activeLiveSpaces, IsActive, RoomKey);
    var t := NormalizeDiscoveryLists(given, nowMs).activeLiveSpaces;
    assert t == Unique(Filter(given.activeLiveSpaces, IsActive), RoomKey);
    forall other | other in t && other != room ensures other.id != room.id {
      OthersOfGiven(s.activeLiveSpaces, room, other);
    }
    forall other | other in s.activeLiveSpaces && other.status == Active && other.id != room.id
      ensures HasRoom(t, other)
    {
      OthersOfGiven(s.activeLiveSpaces, room, other);
    }
  }

  /** A removed room leaves the live list; the rest of it and the other lists stay. */
  lemma RemovedRoomIsGone(s: DiscoveryLists, roomId: JsString, nowMs: int)
    ensures var t := Step(s, RemoveActiveLiveSpace(roomId), nowMs);
      (forall room :: room in t.activeLiveSpaces <==> room in s.activeLiveSpaces && room.id != roomId) &&
      t == s.(activeLiveSpaces := t.activeLiveSpaces)
  {
    FilterMembers(s.activeLiveSpaces, (room: Room) => room.id != roomId);
  }

  lemma ResetEmptiesTheLists(s: DiscoveryLists, nowMs: int)
    ensures Step(s, Reset, nowMs) == DiscoveryLists([], [], [], [])
  {
  }
}
