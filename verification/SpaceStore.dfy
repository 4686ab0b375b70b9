/** The discovery lists of the space store (farcaster-audio/stores/spaceStore.ts). */
module SpaceStore {
  import opened JsStrings
  import opened Options
  import opened Spaces
  import opened UniqueItems

  datatype DiscoveryLists = DiscoveryLists(
    activeLiveSpaces: seq<Room>,
    scheduledSpaces: seq<Room>,
    farcasterLiveSpaces: seq<NativeSpace>,
    farcasterScheduledSpaces: seq<NativeSpace>)

  predicate IsPastScheduled(value: Option<Stamp>, nowMs: int) {
    value.Some? && value.value.At? && value.value.ms <= nowMs
  }

  // ---------------------------------------------------------------------
  // normalizeDiscoveryLists
  // ---------------------------------------------------------------------

  /** `fc:<farcaster id>` for a mirror, `juke:<id>` otherwise. */
  function RoomKey(room: Room): JsString {
    if room.farcasterRoomId != [] then [102, 99, 58] + room.farcasterRoomId else [106, 117, 107, 101, 58] + room.id
  }

  function NativeKey(space: NativeSpace): JsString { space.id }

  function MirroredIds(rooms: seq<Room>): set<JsString> {
    set room | room in rooms && room.farcasterRoomId != [] :: room.farcasterRoomId
  }

  function NativeIds(spaces: seq<NativeSpace>): set<JsString> {
    set space | space in spaces :: space.id
  }

  predicate IsActive(room: Room) { room.status == Active }

  function LiveUnlessIn(taken: set<JsString>): NativeSpace -> bool {
    (space: NativeSpace) => space.state == Active && space.id !in taken
  }

  function UpcomingRoomUnlessIn(taken: set<JsString>, nowMs: int): Room -> bool {
    (room: Room) =>
      room.status == Scheduled && !IsPastScheduled(room.scheduledAt, nowMs) &&
      !(room.farcasterRoomId != [] && room.farcasterRoomId in taken)
  }

  function UpcomingUnlessIn(taken: set<JsString>, nowMs: int): NativeSpace -> bool {
    (space: NativeSpace) =>
      space.state == Scheduled && !IsPastScheduled(space.scheduledAt, nowMs) && space.id !in taken
  }

  function NormalizeDiscoveryLists(lists: DiscoveryLists, nowMs: int): DiscoveryLists {
    var activeLiveSpaces := Unique(Filter(lists.activeLiveSpaces, IsActive), RoomKey);
    var mirroredLiveIds := MirroredIds(activeLiveSpaces);
    var farcasterLiveSpaces := Unique(Filter(lists.farcasterLiveSpaces, LiveUnlessIn(mirroredLiveIds)), NativeKey);
    var liveNativeIds := mirroredLiveIds + NativeIds(farcasterLiveSpaces);
    var scheduledSpaces :=
      Unique(Filter(lists.scheduledSpaces, UpcomingRoomUnlessIn(liveNativeIds, nowMs)), RoomKey);
    var mirroredScheduledIds := MirroredIds(scheduledSpaces);
    var farcasterScheduledSpaces :=
      Unique(Filter(lists.farcasterScheduledSpaces, UpcomingUnlessIn(liveNativeIds + mirroredScheduledIds, nowMs)),
             NativeKey);
    DiscoveryLists(activeLiveSpaces, scheduledSpaces, farcasterLiveSpaces, farcasterScheduledSpaces)
  }

  /** Normalizing what is already normal, at the same instant, changes nothing. */
  lemma NormalizingIsIdempotent(lists: DiscoveryLists, nowMs: int)
    ensures var n := NormalizeDiscoveryLists(lists, nowMs);
      NormalizeDiscoveryLists(n, nowMs) == n
  {
    var n := NormalizeDiscoveryLists(lists, nowMs);
    var mirrored := MirroredIds(n.activeLiveSpaces);
    var live := mirrored + NativeIds(n.farcasterLiveSpaces);
    var taken := live + MirroredIds(n.scheduledSpaces);
    FilteredUniqueIsFixed(lists.activeLiveSpaces, IsActive, RoomKey);
    FilteredUniqueIsFixed(lists.farcasterLiveSpaces, LiveUnlessIn(mirrored), NativeKey);
    FilteredUniqueIsFixed(lists.scheduledSpaces, UpcomingRoomUnlessIn(live, nowMs), RoomKey);
    FilteredUniqueIsFixed(lists.farcasterScheduledSpaces, UpcomingUnlessIn(taken, nowMs), NativeKey);
  }

  lemma FilteredUniqueIsFixed<T>(items: seq<T>, keep: T -> bool, key: T -> JsString)
    ensures var kept := Unique(Filter(items, keep), key);
      Unique(Filter(kept, keep), key) == kept
  {
    var kept := Unique(Filter(items, keep), key);
    FilterMembers(items, keep);
    UniqueIsDistinct(Filter(items, keep), key, {});
    FilterOfKept(kept, keep);
    UniqueOfDistinct(kept, key, {});
  }

  // ---------------------------------------------------------------------
  // Where a Farcaster room id may appear
  // ---------------------------------------------------------------------

  function RoomsMirroring(rooms: seq<Room>, id: JsString): nat {
    if rooms == [] then 0
    else (if id != [] && rooms[0].farcasterRoomId == id then 1 else 0) + RoomsMirroring(rooms[1..], id)
  }

  function NativesNamed(spaces: seq<NativeSpace>, id: JsString): nat {
    if spaces == [] then 0 else (if spaces[0].id == id then 1 else 0) + NativesNamed(spaces[1..], id)
  }

  /** How often `id` appears in the four lists, as a native space or as the room a Juke room mirrors. */
  function Occurrences(lists: DiscoveryLists, id: JsString): nat {
    RoomsMirroring(lists.activeLiveSpaces, id) + RoomsMirroring(lists.scheduledSpaces, id) +
    NativesNamed(lists.farcasterLiveSpaces, id) + NativesNamed(lists.farcasterScheduledSpaces, id)
  }

  ghost predicate EachIdAtMostOnce(lists: DiscoveryLists) {
    forall id :: Occurrences(lists, id) <= 1
  }

  lemma {:induction false} DistinctRoomsMirrorOnce(rooms: seq<Room>, id: JsString)
    requires HasDistinctKeys(rooms, RoomKey)
    ensures RoomsMirroring(rooms, id) == if id in MirroredIds(rooms) then 1 else 0
  {
    if rooms != [] {
      DistinctRoomsMirrorOnce(rooms[1..], id);
      assert rooms == [rooms[0]] + rooms[1..];
      assert forall room :: room in rooms[1..] ==> RoomKey(room) != RoomKey(rooms[0]);
    }
  }

  lemma {:induction false} DistinctNativesAppearOnce(spaces: seq<NativeSpace>, id: JsString)
    requires HasDistinctKeys(spaces, NativeKey)
    ensures NativesNamed(spaces, id) == if id in NativeIds(spaces) then 1 else 0
  {
    if spaces != [] {
      DistinctNativesAppearOnce(spaces[1..], id);
      assert spaces == [spaces[0]] + spaces[1..];
      assert forall space :: space in spaces[1..] ==> NativeKey(space) != NativeKey(spaces[0]);
    }
  }

  /** Some input entry of the list makes `id` eligible for it. */
  predicate HostedLive(lists: DiscoveryLists, id: JsString) {
    id != [] && exists room :: room in lists.activeLiveSpaces && room.status == Active && room.farcasterRoomId == id
  }

  predicate NativeLive(lists: DiscoveryLists, id: JsString) {
    exists space :: space in lists.farcasterLiveSpaces && space.state == Active && space.id == id
  }

  predicate IsUpcoming(status: Status, scheduledAt: Option<Stamp>, nowMs: int) {
    status == Scheduled && !IsPastScheduled(scheduledAt, nowMs)
  }

  predicate HostedUpcoming(lists: DiscoveryLists, id: JsString, nowMs: int) {
    id != [] && exists room ::
      room in lists.scheduledSpaces && IsUpcoming(room.status, room.scheduledAt, nowMs) && room.farcasterRoomId == id
  }

  predicate NativeUpcoming(lists: DiscoveryLists, id: JsString, nowMs: int) {
    exists space ::
      space in lists.farcasterScheduledSpaces && IsUpcoming(space.state, space.scheduledAt, nowMs) && space.id == id
  }

  lemma MirroredAfterUnique(rooms: seq<Room>, keep: Room -> bool, id: JsString)
    ensures id in MirroredIds(Unique(Filter(rooms, keep), RoomKey)) <==>
      id != [] && exists room :: room in rooms && keep(room) && room.farcasterRoomId == id
    ensures HasDistinctKeys(Unique(Filter(rooms, keep), RoomKey), RoomKey)
  {
    var kept := Unique(Filter(rooms, keep), RoomKey);
    FilterMembers(rooms, keep);
    UniqueIsDistinct(Filter(rooms, keep), RoomKey, {});
    if id != [] {
      forall room | room in rooms && keep(room) && room.farcasterRoomId == id
        ensures id in MirroredIds(kept)
      {
        var first :| first in kept && RoomKey(first) == RoomKey(room);
        SameRoomKey(first, room);
      }
    }
  }

  lemma SameRoomKey(a: Room, b: Room)
    requires RoomKey(a) == RoomKey(b)
    ensures a.farcasterRoomId == b.farcasterRoomId
  {
    assert RoomKey(a)[0] == RoomKey(b)[0];
    if a.farcasterRoomId != [] {
      assert RoomKey(a)[3..] == a.farcasterRoomId && RoomKey(b)[3..] == b.farcasterRoomId;
    }
  }

  lemma NativesAfterUnique(spaces: seq<NativeSpace>, keep: NativeSpace -> bool, id: JsString)
    ensures id in NativeIds(Unique(Filter(spaces, keep), NativeKey)) <==>
      exists space :: space in spaces && keep(space) && space.id == id
    ensures HasDistinctKeys(Unique(Filter(spaces, keep), NativeKey), NativeKey)
  {
    var kept := Unique(Filter(spaces, keep), NativeKey);
    FilterMembers(spaces, keep);
    UniqueIsDistinct(Filter(spaces, keep), NativeKey, {});
    forall space | space in spaces && keep(space) && space.id == id
      ensures id in NativeIds(kept)
    {
      var first :| first in kept && NativeKey(first) == NativeKey(space);
    }
  }

  /**
   * Each id ends up in the first list that has an eligible entry for it, in the order hosted live,
   * native live, hosted upcoming, native upcoming; there it appears once, and nowhere else.
   */
  lemma EachIdHasOneHome(lists: DiscoveryLists, nowMs: int, id: JsString)
    ensures var n := NormalizeDiscoveryLists(lists, nowMs);
      var home :=
        if HostedLive(lists, id) then 0
        else if NativeLive(lists, id) then 1
        else if HostedUpcoming(lists, id, nowMs) then 2
        else if NativeUpcoming(lists, id, nowMs) then 3
        else 4;
      RoomsMirroring(n.activeLiveSpaces, id) == (if home == 0 then 1 else 0) &&
      NativesNamed(n.farcasterLiveSpaces, id) == (if home == 1 then 1 else 0) &&
      RoomsMirroring(n.scheduledSpaces, id) == (if home == 2 then 1 else 0) &&
      NativesNamed(n.farcasterScheduledSpaces, id) == (if home == 3 then 1 else 0)
  {
    var n := NormalizeDiscoveryLists(lists, nowMs);
    var mirrored := MirroredIds(n.activeLiveSpaces);
    var live := mirrored + NativeIds(n.farcasterLiveSpaces);
    var taken := live + MirroredIds(n.scheduledSpaces);
    MirroredAfterUnique(lists.activeLiveSpaces, IsActive, id);
    DistinctRoomsMirrorOnce(n.activeLiveSpaces, id);
    NativesAfterUnique(lists.farcasterLiveSpaces, LiveUnlessIn(mirrored), id);
    DistinctNativesAppearOnce(n.farcasterLiveSpaces, id);
    MirroredAfterUnique(lists.scheduledSpaces, UpcomingRoomUnlessIn(live, nowMs), id);
    DistinctRoomsMirrorOnce(n.scheduledSpaces, id);
    NativesAfterUnique(lists.farcasterScheduledSpaces, UpcomingUnlessIn(taken, nowMs), id);
    DistinctNativesAppearOnce(n.farcasterScheduledSpaces, id);
  }

  lemma NormalizedHasEachIdAtMostOnce(lists: DiscoveryLists, nowMs: int)
    ensures EachIdAtMostOnce(NormalizeDiscoveryLists(lists, nowMs))
  {
    forall id ensures Occurrences(NormalizeDiscoveryLists(lists, nowMs), id) <= 1 {
      EachIdHasOneHome(lists, nowMs, id);
    }
  }

  // ---------------------------------------------------------------------
  // The store
  // ---------------------------------------------------------------------

  datatype Action =
    | SetDiscoverySpaces(lists: DiscoveryLists)
    | SetActiveLiveSpaces(rooms: seq<Room>)
    | AddActiveLiveSpace(room: Room)
    | RemoveActiveLiveSpace(roomId: JsString)
    | SetScheduledSpaces(rooms: seq<Room>)
    | SetFarcasterLiveSpaces(spaces: seq<NativeSpace>)
    | SetFarcasterScheduledSpaces(spaces: seq<NativeSpace>)
    | Reset

  const EMPTY := DiscoveryLists([], [], [], [])

  function WithoutRoom(rooms: seq<Room>, roomId: JsString): seq<Room> {
    Filter(rooms, (room: Room) => room.id != roomId)
  }

  /** One action at the instant `nowMs`. */
  function Step(s: DiscoveryLists, a: Action, nowMs: int): DiscoveryLists {
    match a
    case SetDiscoverySpaces(lists) => NormalizeDiscoveryLists(lists, nowMs)
    case SetActiveLiveSpaces(rooms) => NormalizeDiscoveryLists(s.(activeLiveSpaces := rooms), nowMs)
    case AddActiveLiveSpace(room) =>
      NormalizeDiscoveryLists(s.(activeLiveSpaces := [room] + WithoutRoom(s.activeLiveSpaces, room.id)), nowMs)
    case RemoveActiveLiveSpace(roomId) => s.(activeLiveSpaces := WithoutRoom(s.activeLiveSpaces, roomId))
    case SetScheduledSpaces(rooms) => NormalizeDiscoveryLists(s.(scheduledSpaces := rooms), nowMs)
    case SetFarcasterLiveSpaces(spaces) => NormalizeDiscoveryLists(s.(farcasterLiveSpaces := spaces), nowMs)
    case SetFarcasterScheduledSpaces(spaces) => NormalizeDiscoveryLists(s.(farcasterScheduledSpaces := spaces), nowMs)
    case Reset => EMPTY
  }

  function Run(s: DiscoveryLists, actions: seq<(Action, int)>): DiscoveryLists
    decreases |actions|
  {
    if actions == [] then s else Run(Step(s, actions[0].0, actions[0].1), actions[1..])
  }

  lemma {:induction false} FilteringMirrorsNoMore(rooms: seq<Room>, keep: Room -> bool, id: JsString)
    ensures RoomsMirroring(Filter(rooms, keep), id) <= RoomsMirroring(rooms, id)
  {
    if rooms != [] {
      FilteringMirrorsNoMore(rooms[1..], keep, id);
      var rest := Filter(rooms[1..], keep);
      if keep(rooms[0]) {
        assert ([rooms[0]] + rest)[1..] == rest;
      } else {
        assert Filter(rooms, keep) == rest;
      }
    }
  }

  lemma StepKeepsIdsApart(s: DiscoveryLists, a: Action, nowMs: int)
    requires EachIdAtMostOnce(s)
    ensures EachIdAtMostOnce(Step(s, a, nowMs))
  {
    match a
    case RemoveActiveLiveSpace(roomId) =>
      var keep := (room: Room) => room.id != roomId;
      forall id ensures Occurrences(Step(s, a, nowMs), id) <= 1 {
        FilteringMirrorsNoMore(s.activeLiveSpaces, keep, id);
        assert Occurrences(s, id) <= 1;
      }
    case Reset =>
    case SetDiscoverySpaces(lists) => NormalizedHasEachIdAtMostOnce(lists, nowMs);
    case SetActiveLiveSpaces(rooms) => NormalizedHasEachIdAtMostOnce(s.(activeLiveSpaces := rooms), nowMs);
    case AddActiveLiveSpace(room) =>
      NormalizedHasEachIdAtMostOnce(
        s.(activeLiveSpaces := [room] + WithoutRoom(s.activeLiveSpaces, room.id)), nowMs);
    case SetScheduledSpaces(rooms) => NormalizedHasEachIdAtMostOnce(s.(scheduledSpaces := rooms), nowMs);
    case SetFarcasterLiveSpaces(spaces) =>
      NormalizedHasEachIdAtMostOnce(s.(farcasterLiveSpaces := spaces), nowMs);
    case SetFarcasterScheduledSpaces(spaces) =>
      NormalizedHasEachIdAtMostOnce(s.(farcasterScheduledSpaces := spaces), nowMs);
  }

  /** No sequence of actions, at whatever instants, ever shows one Farcaster room twice. */
  lemma {:induction false} EveryRunKeepsIdsApart(s: DiscoveryLists, actions: seq<(Action, int)>)
    requires EachIdAtMostOnce(s)
    ensures EachIdAtMostOnce(Run(s, actions))
    decreases |actions|
  {
    if actions != [] {
      StepKeepsIdsApart(s, actions[0].0, actions[0].1);
      EveryRunKeepsIdsApart(Step(s, actions[0].0, actions[0].1), actions[1..]);
    }
  }

  /** The four discovery fields of the store; `nowMs` is what the clock reads during the call. */
  class Store {
    var activeLiveSpaces: seq<Room>
    var scheduledSpaces: seq<Room>
    var farcasterLiveSpaces: seq<NativeSpace>
    var farcasterScheduledSpaces: seq<NativeSpace>

    function Lists(): DiscoveryLists
      reads this
    {
      DiscoveryLists(activeLiveSpaces, scheduledSpaces, farcasterLiveSpaces, farcasterScheduledSpaces)
    }

    ghost predicate Valid()
      reads this
    {
      EachIdAtMostOnce(Lists())
    }

    constructor ()
      ensures Valid() && Lists() == EMPTY
    {
      activeLiveSpaces, scheduledSpaces, farcasterLiveSpaces, farcasterScheduledSpaces := [], [], [], [];
    }

    /** `set(normalizeDiscoveryLists(...))`, the four fields rebuilt one after another. */
    method SetNormalized(lists: DiscoveryLists, nowMs: int)
      modifies this
      ensures Valid() && Lists() == NormalizeDiscoveryLists(lists, nowMs)
    {
      activeLiveSpaces := UniqueBy(Filter(lists.activeLiveSpaces, IsActive), RoomKey);
      var mirroredLiveIds := MirroredIds(activeLiveSpaces);
      farcasterLiveSpaces := UniqueBy(Filter(lists.farcasterLiveSpaces, LiveUnlessIn(mirroredLiveIds)), NativeKey);
      var liveNativeIds := mirroredLiveIds + NativeIds(farcasterLiveSpaces);
      scheduledSpaces :=
        UniqueBy(Filter(lists.scheduledSpaces, UpcomingRoomUnlessIn(liveNativeIds, nowMs)), RoomKey);
      var taken := liveNativeIds + MirroredIds(scheduledSpaces);
      farcasterScheduledSpaces :=
        UniqueBy(Filter(lists.farcasterScheduledSpaces, UpcomingUnlessIn(taken, nowMs)), NativeKey);
      NormalizedHasEachIdAtMostOnce(lists, nowMs);
    }

    method SetDiscoverySpaces(lists: DiscoveryLists, nowMs: int)
      modifies this
      ensures Valid() && Lists() == Step(old(Lists()), Action.SetDiscoverySpaces(lists), nowMs)
    {
      SetNormalized(lists, nowMs);
    }

    method SetActiveLiveSpaces(rooms: seq<Room>, nowMs: int)
      modifies this
      ensures Valid() && Lists() == Step(old(Lists()), Action.SetActiveLiveSpaces(rooms), nowMs)
    {
      SetNormalized(Lists().(activeLiveSpaces := rooms), nowMs);
    }

    method AddActiveLiveSpace(room: Room, nowMs: int)
      modifies this
      ensures Valid() && Lists() == Step(old(Lists()), Action.AddActiveLiveSpace(room), nowMs)
    {
      SetNormalized(Lists().(activeLiveSpaces := [room] + WithoutRoom(activeLiveSpaces, room.id)), nowMs);
    }

    method RemoveActiveLiveSpace(roomId: JsString, nowMs: int)
      requires Valid()
      modifies this`activeLiveSpaces
      ensures Valid() && Lists() == Step(old(Lists()), Action.RemoveActiveLiveSpace(roomId), nowMs)
    {
      StepKeepsIdsApart(Lists(), Action.RemoveActiveLiveSpace(roomId), nowMs);
      activeLiveSpaces := WithoutRoom(activeLiveSpaces, roomId);
    }

    method SetScheduledSpaces(rooms: seq<Room>, nowMs: int)
      modifies this
      ensures Valid() && Lists() == Step(old(Lists()), Action.SetScheduledSpaces(rooms), nowMs)
    {
      SetNormalized(Lists().(scheduledSpaces := rooms), nowMs);
    }

    method SetFarcasterLiveSpaces(spaces: seq<NativeSpace>, nowMs: int)
      modifies this
      ensures Valid() && Lists() == Step(old(Lists()), Action.SetFarcasterLiveSpaces(spaces), nowMs)
    {
      SetNormalized(Lists().(farcasterLiveSpaces := spaces), nowMs);
    }

    method SetFarcasterScheduledSpaces(spaces: seq<NativeSpace>, nowMs: int)
      modifies this
      ensures Valid() && Lists() == Step(old(Lists()), Action.SetFarcasterScheduledSpaces(spaces), nowMs)
    {
      SetNormalized(Lists().(farcasterScheduledSpaces := spaces), nowMs);
    }

    method Reset(nowMs: int)
      modifies this
      ensures Valid() && Lists() == Step(old(Lists()), Action.Reset, nowMs)
    {
      activeLiveSpaces, scheduledSpaces, farcasterLiveSpaces, farcasterScheduledSpaces := [], [], [], [];
    }
  }
}
