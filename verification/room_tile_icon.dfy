/**
 * The status icon drawn on a room tile: a presence dot for a two-person direct chat, a
 * globe for a public room, nothing otherwise; and the listeners the tile keeps on the
 * direct-chat user and on the room's timeline to keep that icon current.
 */
module RoomTileIcon {
  import Wrappers
  import opened RoomList

  /** The icons; the upper-case values end up, lower-cased, in CSS class names. */
  datatype Icon = None | Globe | PresenceOnline | PresenceAway | PresenceOffline

  function IconValue(icon: Icon): (v: string)
    ensures |v| > 0 && forall k :: 0 <= k < |v| ==> 'A' <= v[k] <= 'Z'
    ensures v == "NONE" <==> icon == None
  {
    match icon
    case None => "NONE"
    case Globe => "GLOBE"
    case PresenceOnline => "ONLINE"
    case PresenceAway => "AWAY"
    case PresenceOffline => "OFFLINE"
  }

  /** What the tile can see of a user: the live activity flag and the presence string. */
  datatype UserState = UserState(currentlyActive: bool, presence: string)

  /**
   * The icon for the direct-chat user, if any: being active or "online" wins, then
   * "offline" and "unavailable"; any other presence shows nothing.
   */
  function PresenceIcon(user: Wrappers.Option<UserState>): (icon: Icon)
    ensures user.None? ==> icon == None
    ensures icon == PresenceOnline <==>
              user.Some? && (user.value.currentlyActive || user.value.presence == "online")
    ensures icon == PresenceOffline <==>
              user.Some? && !user.value.currentlyActive && user.value.presence == "offline"
    ensures icon == PresenceAway <==>
              user.Some? && !user.value.currentlyActive && user.value.presence == "unavailable"
    ensures icon != Globe
  {
    if user.None? then None
    else
      var u := user.value;
      if u.currentlyActive || u.presence == "online" then PresenceOnline
      else if u.presence == "offline" then PresenceOffline
      else if u.presence == "unavailable" then PresenceAway
      else None
  }

  /**
   * What the tile reads of its room: the joined member count and the `join_rule` of the
   * `m.room.join_rules` state event (absent when there is no such event or no such field).
   */
  datatype RoomState = RoomState(joinedMemberCount: int, joinRule: Wrappers.Option<string>)

  /** The join rule reads "public"; a room without a join-rules event or field is not public. */
  predicate IsPublicRoom(room: RoomState)
    ensures IsPublicRoom(room) ==> room.joinRule.Some? && room.joinRule.value == "public"
    ensures room.joinRule.None? ==> !IsPublicRoom(room)
  {
    room.joinRule == Wrappers.Some("public")
  }

  /** A room tracked by presence rather than by publicity: a DM with exactly two members. */
  predicate IsDmPair(tag: TagId, room: RoomState)
  {
    tag == DM && room.joinedMemberCount == 2
  }

  /**
   * What the tile learns from outside when it computes its icon: whether presence is
   * enabled, the DM counterpart the room map gives for the room, and the users the client
   * knows, by user id.
   */
  datatype Lookup = Lookup(presenceEnabled: bool, counterpart: Wrappers.Option<string>,
                           users: map<string, UserState>)

  /** Presence is tracked for this room with this counterpart. */
  predicate TracksPresence(tag: TagId, room: RoomState, look: Lookup)
  {
    IsDmPair(tag, room) && look.presenceEnabled && Wrappers.Truthy(look.counterpart)
  }

  /** The client's user object for an id: absent when the client does not know the user. */
  function UserFor(id: string, look: Lookup): (u: Wrappers.Option<string>)
    ensures u.Some? <==> id in look.users
    ensures u.Some? ==> u.value == id
  {
    if id in look.users then Wrappers.Some(id) else Wrappers.None
  }

  function StateOf(user: Wrappers.Option<string>, look: Lookup): Wrappers.Option<UserState>
  {
    if user.Some? && user.value in look.users then Wrappers.Some(look.users[user.value])
    else Wrappers.None
  }

  /**
   * The icon the tile computes: a two-member DM shows its counterpart's presence when that
   * is tracked and nothing otherwise; any other room shows the globe exactly when public.
   */
  function CalculatedIcon(tag: TagId, room: RoomState, look: Lookup): (icon: Icon)
    ensures IsDmPair(tag, room) ==> icon != Globe
    ensures TracksPresence(tag, room, look) ==>
              icon == PresenceIcon(StateOf(UserFor(look.counterpart.value, look), look))
    ensures IsDmPair(tag, room) && !TracksPresence(tag, room, look) ==> icon == None
    ensures !IsDmPair(tag, room) ==> (icon == Globe <==> IsPublicRoom(room))
    ensures !IsDmPair(tag, room) ==> icon == Globe || icon == None
  {
    if IsDmPair(tag, room) then
      if TracksPresence(tag, room, look) then
        PresenceIcon(StateOf(UserFor(look.counterpart.value, look), look))
      else None
    else if IsPublicRoom(room) then Globe
    else None
  }

  // ---- Rendering ----

  function LowerChar(c: char): char
  {
    if 'A' <= c <= 'Z' then (c as int - 'A' as int + 'a' as int) as char else c
  }

  function Lower(s: string): (r: string)
    ensures |r| == |s|
    ensures forall k :: 0 <= k < |s| ==> r[k] == LowerChar(s[k])
  {
    if s == [] then [] else [LowerChar(s[0])] + Lower(s[1..])
  }

  const IconClassPrefix: string := "mx_RoomTileIcon mx_RoomTileIcon_"

  /** The class of the rendered icon element; nothing is rendered for `None`. */
  function RenderClass(icon: Icon): (r: Wrappers.Option<string>)
    ensures r.None? <==> icon == None
    ensures r.Some? ==> |r.value| == |IconClassPrefix| + |IconValue(icon)|
    ensures r.Some? ==> r.value[..|IconClassPrefix|] == IconClassPrefix
    ensures r.Some? ==> forall k :: 0 <= k < |IconValue(icon)| ==>
              r.value[|IconClassPrefix| + k] == LowerChar(IconValue(icon)[k])
  {
    if icon == None then Wrappers.None
    else Wrappers.Some(IconClassPrefix + Lower(IconValue(icon)))
  }

  /** Distinct icons render distinct classes. */
  lemma RenderClassInjective(a: Icon, b: Icon)
    requires RenderClass(a) == RenderClass(b)
    ensures a == b
  {
    if a != None {
      var ra := RenderClass(a).value;
      var rb := RenderClass(b).value;
      assert Lower(IconValue(a)) == ra[|IconClassPrefix|..];
      assert Lower(IconValue(b)) == rb[|IconClassPrefix|..];
      assert Lower(IconValue(a))[0] == LowerChar(IconValue(a)[0]);
      assert Lower(IconValue(b))[0] == LowerChar(IconValue(b)[0]);
    }
  }

  // ---- Listener bookkeeping ----

  /** The tile's presence handler on a user, for one of the two events it listens to. */
  datatype Listener = Listener(userId: string, event: EventName)

  datatype EventName = UserCurrentlyActive | UserPresence

  /** The two presence handlers on a user, or none. */
  function UserListeners(user: Wrappers.Option<string>): multiset<Listener>
  {
    if user.None? then multiset{}
    else multiset{Listener(user.value, UserCurrentlyActive), Listener(user.value, UserPresence)}
  }

  /** Swapping users exchanges their handlers. */
  lemma SwapListeners(oldUser: Wrappers.Option<string>, newUser: Wrappers.Option<string>)
    ensures UserListeners(oldUser) - UserListeners(oldUser) + UserListeners(newUser) == UserListeners(newUser)
  {
  }

  /** The room tile's icon component, with the handlers it has registered in `handlers`. */
  class RoomTileIcon {
    const roomId: string
    const tag: TagId
    /** The DM counterpart's user object, by user id, or none. */
    var dmUser: Wrappers.Option<string>
    var isUnmounted: bool
    var isWatchingTimeline: bool
    /** The component state: the icon shown. */
    var icon: Icon
    /** The tile's presence handlers currently registered on users. */
    ghost var userHandlers: multiset<Listener>
    /** How many of the tile's timeline handlers are registered on its room. */
    ghost var timelineHandlers: nat
    /** How many times the timeline handler has been registered. */
    ghost var timelineRegistrations: nat

    /**
     * The live presence handlers are exactly the current user's two; the timeline handler
     * is live while it is watched and the tile is mounted, and is registered at most once
     * in the tile's life; an unmounted tile has no user.
     */
    ghost predicate Valid()
      reads this
    {
      && userHandlers == UserListeners(dmUser)
      && timelineHandlers == (if isWatchingTimeline && !isUnmounted then 1 else 0)
      && timelineRegistrations == (if isWatchingTimeline then 1 else 0)
      && (isUnmounted ==> dmUser.None?)
    }

    /**
     * The `dmUser` setter: when the user changes, the old user's two presence handlers are
     * removed and the new user's two added; setting the same user changes nothing.
     */
    method SetDmUser(val: Wrappers.Option<string>)
      modifies this`dmUser, this`userHandlers
      ensures dmUser == val
      ensures old(dmUser) != val ==> userHandlers == old(userHandlers) - UserListeners(old(dmUser)) + UserListeners(val)
      ensures old(dmUser) == val ==> userHandlers == old(userHandlers)
      ensures old(userHandlers) == UserListeners(old(dmUser)) ==> userHandlers == UserListeners(val)
    {
      SwapListeners(dmUser, val);
      var oldUser := dmUser;
      dmUser := val;
      if oldUser != dmUser {
        // `off` both presence handlers of the old user (if any), then `on` both for the new one
        userHandlers := userHandlers - UserListeners(oldUser);
        userHandlers := userHandlers + UserListeners(dmUser);
      }
    }

    /**
     * Compute the icon: a two-member DM takes the counterpart's presence (setting the DM
     * user) when presence is tracked; any other room takes its publicity and starts
     * watching the timeline, once.
     */
    method CalculateIcon(room: RoomState, look: Lookup) returns (newIcon: Icon)
      requires Valid() && !isUnmounted
      modifies this`dmUser, this`isWatchingTimeline, this`userHandlers, this`timelineHandlers, this`timelineRegistrations
      ensures Valid() && !isUnmounted
      ensures newIcon == CalculatedIcon(tag, room, look)
      ensures TracksPresence(tag, room, look) ==> dmUser == UserFor(look.counterpart.value, look)
      ensures !TracksPresence(tag, room, look) ==> dmUser == old(dmUser)
      ensures isWatchingTimeline == (old(isWatchingTimeline) || !IsDmPair(tag, room))
    {
      newIcon := None;
      if tag == DM && room.joinedMemberCount == 2 {
        if look.presenceEnabled {
          var otherUserId := look.counterpart;
          if Wrappers.Truthy(otherUserId) {
            SetDmUser(UserFor(otherUserId.value, look));
            newIcon := PresenceIcon(StateOf(dmUser, look));
          }
        }
      } else {
        newIcon := if IsPublicRoom(room) then Globe else None;
        if !isWatchingTimeline {
          timelineHandlers := timelineHandlers + 1;
          timelineRegistrations := timelineRegistrations + 1;
          isWatchingTimeline := true;
        }
      }
    }

    /** Mount: the icon is computed once from the room and the lookups. */
    constructor (roomId: string, tag: TagId, room: RoomState, look: Lookup)
      ensures Valid() && !isUnmounted
      ensures this.roomId == roomId && this.tag == tag
      ensures icon == CalculatedIcon(tag, room, look)
      ensures isWatchingTimeline == !IsDmPair(tag, room)
      ensures dmUser == (if TracksPresence(tag, room, look) then UserFor(look.counterpart.value, look) else Wrappers.None)
    {
      this.roomId := roomId;
      this.tag := tag;
      dmUser := Wrappers.None;
      isUnmounted := false;
      isWatchingTimeline := false;
      icon := None;
      userHandlers := multiset{};
      timelineHandlers := 0;
      timelineRegistrations := 0;
      new;
      var first := CalculateIcon(room, look);
      icon := first;
    }

    /**
     * A timeline event: ignored after unmount, without a room, or on another room; a
     * join-rules or membership event recomputes the icon, any other event is ignored.
     */
    method OnRoomTimeline(evType: string, evRoomId: Wrappers.Option<string>, room: RoomState, look: Lookup)
      requires Valid()
      modifies this`icon, this`dmUser, this`isWatchingTimeline, this`userHandlers, this`timelineHandlers,
               this`timelineRegistrations
      ensures Valid()
      ensures isUnmounted == old(isUnmounted)
      ensures userHandlers == UserListeners(dmUser) && timelineRegistrations <= 1
      ensures var relevant := !isUnmounted && evRoomId == Wrappers.Some(roomId) &&
                              (evType == "m.room.join_rules" || evType == "m.room.member");
              (relevant ==> icon == CalculatedIcon(tag, room, look)) &&
              (relevant && TracksPresence(tag, room, look) ==> dmUser == UserFor(look.counterpart.value, look)) &&
              (relevant && !TracksPresence(tag, room, look) ==> dmUser == old(dmUser)) &&
              (relevant ==> isWatchingTimeline == (old(isWatchingTimeline) || !IsDmPair(tag, room))) &&
              (!relevant ==> icon == old(icon) && dmUser == old(dmUser) && userHandlers == old(userHandlers) &&
                             isWatchingTimeline == old(isWatchingTimeline))
    {
      if isUnmounted {
        return;
      }
      if evRoomId.None? {
        return;
      }
      if roomId != evRoomId.value {
        return;
      }
      if evType == "m.room.join_rules" || evType == "m.room.member" {
        icon := CalculateIcon(room, look);
      }
    }

    /** The DM user's presence changed: re-read it, unless unmounted. */
    method OnPresenceUpdate(look: Lookup)
      modifies this`icon
      ensures isUnmounted ==> icon == old(icon)
      ensures !isUnmounted ==> icon == PresenceIcon(StateOf(dmUser, look))
    {
      if isUnmounted {
        return;
      }
      var newIcon := PresenceIcon(StateOf(dmUser, look));
      if newIcon != icon {
        icon := newIcon;
      }
    }

    /** Unmount: drop the timeline handler if it was added and clear the DM user; nothing stays registered. */
    method ComponentWillUnmount()
      requires Valid()
      modifies this`isUnmounted, this`dmUser, this`userHandlers, this`timelineHandlers
      ensures Valid()
      ensures isUnmounted && dmUser.None?
      ensures userHandlers == multiset{} && timelineHandlers == 0
    {
      isUnmounted := true;
      if isWatchingTimeline && timelineHandlers > 0 {
        timelineHandlers := timelineHandlers - 1;
      }
      SetDmUser(Wrappers.None);
    }
  }
}
