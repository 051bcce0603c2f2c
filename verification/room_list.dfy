/**
 * The room list sidebar (RoomList2): which tag sections are rendered, in which order and
 * with which display metadata, the per-tag layout map rebuilt on every store update, and
 * the attachment of the name-search filter condition to the room-list store.
 */
module RoomList {
  import opened Wrappers

  /** A room-list tag: the seven default tags, or any other (custom) tag identifier. */
  datatype TagId =
    | Invite
    | Favourite
    | DM
    | Untagged
    | LowPriority
    | ServerNotice
    | Archived
    | Custom(name: string)

  /** A room is only ever referenced by the room list, never owned. */
  datatype Room = Room(roomId: string)

  /** The fixed order in which sections are rendered. */
  const TagOrder: seq<TagId> := [Invite, Favourite, DM, Untagged, LowPriority, ServerNotice, Archived]

  /** Tags whose section is rendered even when it holds no room. */
  const AlwaysVisibleTags: seq<TagId> := [DM, Untagged]

  /** The actions a section's "add room" button dispatches. */
  datatype AddRoomAction = ViewCreateChat | ViewCreateRoom

  /** The dispatcher action name of an add-room action. */
  function ActionName(a: AddRoomAction): (name: string)
    ensures name == "view_create_chat" || name == "view_create_room"
    ensures (name == "view_create_chat") <==> a == ViewCreateChat
  {
    match a
    case ViewCreateChat => "view_create_chat"
    case ViewCreateRoom => "view_create_room"
  }

  /** Static display metadata of a tag's section. */
  datatype TagAesthetics = TagAesthetics(
    sectionLabel: string,
    addRoomLabel: Option<string>,
    onAddRoom: Option<AddRoomAction>,
    isInvite: bool,
    defaultHidden: bool)

  /** The metadata table; custom tags have no entry. */
  function AestheticsFor(tag: TagId): (r: Option<TagAesthetics>)
    ensures r.None? <==> tag.Custom?
    ensures r.Some? ==> r.value.sectionLabel != ""
    ensures r.Some? ==> (r.value.onAddRoom.Some? <==> r.value.addRoomLabel.Some?)
  {
    match tag
    case Invite => Some(TagAesthetics("Invites", None, None, true, false))
    case Favourite => Some(TagAesthetics("Favourites", None, None, false, false))
    case DM => Some(TagAesthetics("People", Some("Start chat"), Some(ViewCreateChat), false, false))
    case Untagged => Some(TagAesthetics("Rooms", Some("Create room"), Some(ViewCreateRoom), false, false))
    case LowPriority => Some(TagAesthetics("Low priority", None, None, false, false))
    case ServerNotice => Some(TagAesthetics("System Alerts", None, None, false, false))
    case Archived => Some(TagAesthetics("Historical", None, None, false, true))
    case Custom(_) => None
  }

  /** Every tag of the render order has metadata, and only DM and Untagged offer an add-room action. */
  lemma AestheticsTable(tag: TagId)
    requires tag in TagOrder
    ensures AestheticsFor(tag).Some?
    ensures AestheticsFor(tag).value.defaultHidden <==> tag == Archived
    ensures AestheticsFor(tag).value.isInvite <==> tag == Invite
    ensures AestheticsFor(tag).value.onAddRoom.Some? <==> tag in AlwaysVisibleTags
    ensures AestheticsFor(tag).value.onAddRoom.Some? <==> AestheticsFor(tag).value.addRoomLabel.Some?
    ensures tag == DM ==> AestheticsFor(tag).value.onAddRoom == Some(ViewCreateChat)
    ensures tag == Untagged ==> AestheticsFor(tag).value.onAddRoom == Some(ViewCreateRoom)
  {
  }

  /** The layout object kept per tag. */
  datatype ListLayout = ListLayout(tagId: TagId)

  /** What one rendered section receives. */
  datatype Section = Section(
    tagId: TagId,
    rooms: seq<Room>,
    startAsHidden: bool,
    sectionLabel: string,
    onAddRoom: Option<AddRoomAction>,
    addRoomLabel: Option<string>,
    isInvite: bool,
    layout: Option<ListLayout>)

  /** The rooms of a tag; a tag absent from the map has none. */
  function RoomsFor(sublists: map<TagId, seq<Room>>, tag: TagId): seq<Room>
  {
    if tag in sublists then sublists[tag] else []
  }

  /** A tag's section is shown when it has rooms or is always visible. */
  predicate IsVisible(sublists: map<TagId, seq<Room>>, tag: TagId)
  {
    |RoomsFor(sublists, tag)| != 0 || tag in AlwaysVisibleTags
  }

  function LayoutFor(layouts: map<TagId, ListLayout>, tag: TagId): Option<ListLayout>
  {
    if tag in layouts then Some(layouts[tag]) else None
  }

  /** The section built for a shown tag from its metadata. */
  function SectionFor(tag: TagId, a: TagAesthetics, sublists: map<TagId, seq<Room>>,
                      layouts: map<TagId, ListLayout>): Section
  {
    Section(tag, RoomsFor(sublists, tag), a.defaultHidden, a.sectionLabel, a.onAddRoom,
            a.addRoomLabel, a.isInvite, LayoutFor(layouts, tag))
  }

  /**
   * The sections rendered for `tags`, in order, or the first shown tag that lacks
   * metadata (the "does not have aesthetics" error).
   */
  function Render(tags: seq<TagId>, sublists: map<TagId, seq<Room>>,
                  layouts: map<TagId, ListLayout>): (r: Result<seq<Section>, TagId>)
    ensures r.Ok? ==> |r.value| <= |tags|
    ensures r.Err? ==> r.error in tags && r.error.Custom?
    decreases |tags|
  {
    if tags == [] then Ok([])
    else
      var done := Render(tags[..|tags| - 1], sublists, layouts);
      var tag := tags[|tags| - 1];
      if done.Err? || !IsVisible(sublists, tag) then done
      else match AestheticsFor(tag)
        case None => Err(tag)
        case Some(a) => Ok(done.value + [SectionFor(tag, a, sublists, layouts)])
  }

  /** Reference definition: the shown tags of `tags`, in order. */
  function VisibleTags(tags: seq<TagId>, sublists: map<TagId, seq<Room>>): seq<TagId>
    decreases |tags|
  {
    if tags == [] then []
    else
      var init := VisibleTags(tags[..|tags| - 1], sublists);
      if IsVisible(sublists, tags[|tags| - 1]) then init + [tags[|tags| - 1]] else init
  }

  function TagsOf(sections: seq<Section>): seq<TagId>
    decreases |sections|
  {
    if sections == [] then []
    else TagsOf(sections[..|sections| - 1]) + [sections[|sections| - 1].tagId]
  }

  /** `xs` can be obtained from `ys` by deleting elements. */
  predicate IsSubsequence<T(==)>(xs: seq<T>, ys: seq<T>)
    decreases |ys|
  {
    xs == [] ||
    (ys != [] &&
     (IsSubsequence(xs, ys[..|ys| - 1]) ||
      (xs[|xs| - 1] == ys[|ys| - 1] && IsSubsequence(xs[..|xs| - 1], ys[..|ys| - 1]))))
  }

  /** An error is reported exactly when some shown tag lacks metadata, and it names such a tag. */
  lemma {:induction false} RenderErrIff(tags: seq<TagId>, sublists: map<TagId, seq<Room>>,
                                         layouts: map<TagId, ListLayout>)
    ensures Render(tags, sublists, layouts).Err? <==>
            exists k :: 0 <= k < |tags| && IsVisible(sublists, tags[k]) && AestheticsFor(tags[k]).None?
    ensures Render(tags, sublists, layouts).Err? ==>
            var t := Render(tags, sublists, layouts).error;
            t in tags && IsVisible(sublists, t) && AestheticsFor(t).None?
    decreases |tags|
  {
    if tags != [] {
      var init := tags[..|tags| - 1];
      RenderErrIff(init, sublists, layouts);
      forall k | 0 <= k < |init| ensures init[k] == tags[k] { }
      if Render(init, sublists, layouts).Err? {
        var t := Render(init, sublists, layouts).error;
        assert t in init;
      }
    }
  }

  /** Once a prefix has failed, the whole render fails with the same error. */
  lemma {:induction false} RenderErrSticky(tags: seq<TagId>, k: nat, sublists: map<TagId, seq<Room>>,
                                            layouts: map<TagId, ListLayout>)
    requires k <= |tags|
    requires Render(tags[..k], sublists, layouts).Err?
    ensures Render(tags, sublists, layouts) == Render(tags[..k], sublists, layouts)
    decreases |tags| - k
  {
    if k < |tags| {
      assert tags[..k + 1][..k] == tags[..k];
      RenderErrSticky(tags, k + 1, sublists, layouts);
    } else {
      assert tags[..k] == tags;
    }
  }

  /** The rendered sections are exactly the shown tags, in the given order. */
  lemma {:induction false} RenderSelectsVisible(tags: seq<TagId>, sublists: map<TagId, seq<Room>>,
                                                 layouts: map<TagId, ListLayout>)
    requires Render(tags, sublists, layouts).Ok?
    ensures TagsOf(Render(tags, sublists, layouts).value) == VisibleTags(tags, sublists)
    decreases |tags|
  {
    if tags != [] {
      var init := tags[..|tags| - 1];
      RenderSelectsVisible(init, sublists, layouts);
      var secs := Render(init, sublists, layouts).value;
      var tag := tags[|tags| - 1];
      if IsVisible(sublists, tag) {
        var s := SectionFor(tag, AestheticsFor(tag).value, sublists, layouts);
        assert (secs + [s])[..|secs + [s]| - 1] == secs;
      }
    }
  }

  /**
   * With no tag listed twice, a successful render has at most one section per tag, and
   * every section is for a tag of the list.
   */
  lemma {:induction false} RenderDistinctTags(tags: seq<TagId>, sublists: map<TagId, seq<Room>>,
                                               layouts: map<TagId, ListLayout>)
    requires forall i, j :: 0 <= i < j < |tags| ==> tags[i] != tags[j]
    requires Render(tags, sublists, layouts).Ok?
    ensures var secs := Render(tags, sublists, layouts).value;
            forall i, j :: 0 <= i < j < |secs| ==> secs[i].tagId != secs[j].tagId
    ensures var secs := Render(tags, sublists, layouts).value;
            forall k :: 0 <= k < |secs| ==> secs[k].tagId in tags
    decreases |tags|
  {
    if tags != [] {
      var init := tags[..|tags| - 1];
      var tag := tags[|tags| - 1];
      RenderDistinctTags(init, sublists, layouts);
      var secs := Render(init, sublists, layouts).value;
      assert tag !in init;
      forall k | 0 <= k < |secs| ensures secs[k].tagId in tags {
        assert secs[k].tagId in init;
      }
    }
  }

  /** Every rendered section carries its tag's rooms unchanged and its tag's metadata. */
  lemma {:induction false} RenderSectionsFaithful(tags: seq<TagId>, sublists: map<TagId, seq<Room>>,
                                                   layouts: map<TagId, ListLayout>)
    requires Render(tags, sublists, layouts).Ok?
    ensures forall s :: s in Render(tags, sublists, layouts).value ==>
              AestheticsFor(s.tagId).Some? &&
              s == SectionFor(s.tagId, AestheticsFor(s.tagId).value, sublists, layouts)
    decreases |tags|
  {
    if tags != [] {
      RenderSelectsVisible(tags, sublists, layouts);
      RenderSectionsFaithful(tags[..|tags| - 1], sublists, layouts);
    }
  }

  /** Membership in the shown tags: both directions. */
  lemma {:induction false} VisibleTagsMembers(tags: seq<TagId>, sublists: map<TagId, seq<Room>>)
    ensures forall t :: t in VisibleTags(tags, sublists) <==> t in tags && IsVisible(sublists, t)
    decreases |tags|
  {
    if tags != [] {
      var init := tags[..|tags| - 1];
      VisibleTagsMembers(init, sublists);
      assert tags == init + [tags[|tags| - 1]];
    }
  }

  /** The shown tags are a subsequence of the tags they were selected from. */
  lemma {:induction false} VisibleTagsSubsequence(tags: seq<TagId>, sublists: map<TagId, seq<Room>>)
    ensures IsSubsequence(VisibleTags(tags, sublists), tags)
    decreases |tags|
  {
    if tags != [] {
      var init := tags[..|tags| - 1];
      var v := VisibleTags(init, sublists);
      VisibleTagsSubsequence(init, sublists);
      if IsVisible(sublists, tags[|tags| - 1]) {
        assert (v + [tags[|tags| - 1]])[..|v|] == v;
      }
    }
  }

  /** Every tag of the render order has metadata, so rendering it never throws. */
  lemma RenderNeverThrows(sublists: map<TagId, seq<Room>>, layouts: map<TagId, ListLayout>)
    ensures Render(TagOrder, sublists, layouts).Ok?
  {
    RenderErrIff(TagOrder, sublists, layouts);
    if Render(TagOrder, sublists, layouts).Err? {
      var k :| 0 <= k < |TagOrder| && AestheticsFor(TagOrder[k]).None?;
      AestheticsTable(TagOrder[k]);
    }
  }

  /**
   * The rendered sections are the shown tags of TagOrder, in that order: a subsequence of
   * TagOrder, holding a tag exactly when it is in TagOrder and shown (so no custom tag).
   */
  lemma RenderedTagsInOrder(sublists: map<TagId, seq<Room>>, layouts: map<TagId, ListLayout>)
    ensures Render(TagOrder, sublists, layouts).Ok?
    ensures var tags := TagsOf(Render(TagOrder, sublists, layouts).value);
      && tags == VisibleTags(TagOrder, sublists)
      && IsSubsequence(tags, TagOrder)
      && (forall t :: t in tags <==> t in TagOrder && IsVisible(sublists, t))
  {
    RenderNeverThrows(sublists, layouts);
    RenderSelectsVisible(TagOrder, sublists, layouts);
    VisibleTagsSubsequence(TagOrder, sublists);
    VisibleTagsMembers(TagOrder, sublists);
  }

  /**
   * Each section rendered for TagOrder holds its tag's rooms unchanged and its layout; only
   * Archived starts hidden; only DM (view_create_chat) and Untagged (view_create_room) offer
   * an add-room action.
   */
  lemma RenderedSectionFields(sublists: map<TagId, seq<Room>>, layouts: map<TagId, ListLayout>, s: Section)
    requires Render(TagOrder, sublists, layouts).Ok?
    requires s in Render(TagOrder, sublists, layouts).value
    ensures s.rooms == RoomsFor(sublists, s.tagId)
    ensures s.layout == LayoutFor(layouts, s.tagId)
    ensures s.startAsHidden <==> s.tagId == Archived
    ensures s.onAddRoom.Some? <==> s.tagId in AlwaysVisibleTags
    ensures s.tagId == DM ==> s.onAddRoom == Some(ViewCreateChat)
    ensures s.tagId == Untagged ==> s.onAddRoom == Some(ViewCreateRoom)
  {
    var secs := Render(TagOrder, sublists, layouts).value;
    RenderSectionsFaithful(TagOrder, sublists, layouts);
    RenderedTagsInOrder(sublists, layouts);
    TagsOfMembers(secs, s);
    AestheticsTable(s.tagId);
  }

  lemma {:induction false} TagsOfMembers(secs: seq<Section>, s: Section)
    requires s in secs
    ensures s.tagId in TagsOf(secs)
    decreases |secs|
  {
    if s != secs[|secs| - 1] {
      TagsOfMembers(secs[..|secs| - 1], s);
    }
  }

  lemma VisibleTagsSnoc(tags: seq<TagId>, tag: TagId, sublists: map<TagId, seq<Room>>)
    ensures VisibleTags(tags + [tag], sublists) ==
            VisibleTags(tags, sublists) + (if IsVisible(sublists, tag) then [tag] else [])
  {
    assert (tags + [tag])[..|tags|] == tags;
  }

  /** With every list empty, exactly two sections are rendered: DM, then Untagged. */
  lemma AllEmptyRendersDmAndUntagged(sublists: map<TagId, seq<Room>>, layouts: map<TagId, ListLayout>)
    requires forall t :: RoomsFor(sublists, t) == []
    ensures Render(TagOrder, sublists, layouts).Ok?
    ensures TagsOf(Render(TagOrder, sublists, layouts).value) == [DM, Untagged]
  {
    RenderNeverThrows(sublists, layouts);
    RenderSelectsVisible(TagOrder, sublists, layouts);
    AllEmptyVisibleTags(sublists);
  }

  /** With no rooms at all, only the always-visible tags are shown. */
  lemma AllEmptyVisibleTags(sublists: map<TagId, seq<Room>>)
    requires forall t :: RoomsFor(sublists, t) == []
    ensures VisibleTags(TagOrder, sublists) == [DM, Untagged]
  {
    assert RoomsFor(sublists, Invite) == [] && RoomsFor(sublists, Favourite) == [];
    var t0: seq<TagId> := [];
    var t1, t2, t3 := t0 + [Invite], t0 + [Invite, Favourite], t0 + [Invite, Favourite, DM];
    var t4 := t3 + [Untagged];
    assert t1 == t0 + [Invite] && t2 == t1 + [Favourite] && t3 == t2 + [DM];
    VisibleTagsSnoc(t0, Invite, sublists);
    VisibleTagsSnoc(t1, Favourite, sublists);
    VisibleTagsSnoc(t2, DM, sublists);
    VisibleTagsSnoc(t3, Untagged, sublists);
    assert VisibleTags(t2, sublists) == [];
    assert VisibleTags(t4, sublists) == [DM, Untagged];
    HiddenTail(t4, sublists);
  }

  /** The tags after Untagged in the default order are hidden when they have no rooms. */
  lemma HiddenTail(t4: seq<TagId>, sublists: map<TagId, seq<Room>>)
    requires forall t :: RoomsFor(sublists, t) == []
    requires t4 == [Invite, Favourite, DM, Untagged]
    ensures VisibleTags(TagOrder, sublists) == VisibleTags(t4, sublists)
  {
    assert RoomsFor(sublists, LowPriority) == [] && RoomsFor(sublists, ServerNotice) == [];
    assert RoomsFor(sublists, Archived) == [];
    var t5 := t4 + [LowPriority];
    var t6 := t5 + [ServerNotice];
    assert t6 + [Archived] == TagOrder;
    VisibleTagsSnoc(t4, LowPriority, sublists);
    VisibleTagsSnoc(t5, ServerNotice, sublists);
    VisibleTagsSnoc(t6, Archived, sublists);
  }


  /** Rendering one more tag: the unfolding the loop below follows. */
  lemma RenderStep(tags: seq<TagId>, i: nat, sublists: map<TagId, seq<Room>>, layouts: map<TagId, ListLayout>)
    requires i < |tags|
    ensures var done := Render(tags[..i], sublists, layouts);
            Render(tags[..i + 1], sublists, layouts) ==
              if done.Err? || !IsVisible(sublists, tags[i]) then done
              else if AestheticsFor(tags[i]).None? then Err(tags[i])
              else Ok(done.value + [SectionFor(tags[i], AestheticsFor(tags[i]).value, sublists, layouts)])
  {
    assert tags[..i + 1][..i] == tags[..i];
  }

  /**
   * The render loop over a tag order: pushes one section per shown tag and throws on a
   * shown tag without metadata.
   */
  method RenderTags(tags: seq<TagId>, sublists: map<TagId, seq<Room>>, layouts: map<TagId, ListLayout>)
    returns (r: Result<seq<Section>, TagId>)
    ensures r == Render(tags, sublists, layouts)
  {
    var components: seq<Section> := [];
    var i := 0;
    while i < |tags|
      invariant 0 <= i <= |tags|
      invariant Render(tags[..i], sublists, layouts) == Ok(components)
    {
      var orderedTagId := tags[i];
      RenderStep(tags, i, sublists, layouts);
      var orderedRooms := RoomsFor(sublists, orderedTagId);
      if |orderedRooms| == 0 && orderedTagId !in AlwaysVisibleTags {
        i := i + 1;
      } else {
        var aesthetics := AestheticsFor(orderedTagId);
        if aesthetics.None? {
          RenderErrSticky(tags, i + 1, sublists, layouts);
          return Err(orderedTagId);
        }
        components := components + [SectionFor(orderedTagId, aesthetics.value, sublists, layouts)];
        i := i + 1;
      }
    }
    assert tags[..i] == tags;
    r := Ok(components);
  }

  /** Builds one layout per tag of the new lists. */
  method BuildLayouts(newLists: map<TagId, seq<Room>>) returns (layoutMap: map<TagId, ListLayout>)
    ensures layoutMap.Keys == newLists.Keys
    ensures forall t :: t in layoutMap ==> layoutMap[t] == ListLayout(t)
  {
    layoutMap := map[];
    var remaining := newLists.Keys;
    while remaining != {}
      invariant remaining <= newLists.Keys
      invariant layoutMap.Keys == newLists.Keys - remaining
      invariant forall t :: t in layoutMap ==> layoutMap[t] == ListLayout(t)
      decreases remaining
    {
      var tagId :| tagId in remaining;
      layoutMap := layoutMap[tagId := ListLayout(tagId)];
      remaining := remaining - {tagId};
    }
  }

  // ---- The name-search filter ----

  /** ECMAScript white space and line terminators, the characters `trim` removes. */
  predicate IsJsWhitespace(c: char)
  {
    c in {'\t', '\n', '\U{000B}', '\U{000C}', '\r', ' ', '\U{00A0}', '\U{1680}', '\U{2028}',
          '\U{2029}', '\U{202F}', '\U{205F}', '\U{3000}', '\U{FEFF}'}
    || ('\U{2000}' <= c <= '\U{200A}')
  }

  /** Leading white space removed: empty exactly when `s` is all white space. */
  function TrimStart(s: string): (r: string)
    ensures |r| <= |s|
    ensures r == "" <==> forall i :: 0 <= i < |s| ==> IsJsWhitespace(s[i])
    ensures r != "" ==> !IsJsWhitespace(r[0])
    decreases |s|
  {
    if s != [] && IsJsWhitespace(s[0]) then
      assert forall i :: 1 <= i < |s| ==> s[i] == s[1..][i - 1];
      TrimStart(s[1..])
    else s
  }

  /** Trailing white space removed: the first character stays, and keeps the result non-empty if not white. */
  function TrimEnd(s: string): (r: string)
    ensures |r| <= |s|
    ensures r != "" ==> r[0] == s[0]
    ensures r != "" ==> !IsJsWhitespace(r[|r| - 1])
    ensures s != "" && !IsJsWhitespace(s[0]) ==> r != ""
    decreases |s|
  {
    if s != [] && IsJsWhitespace(s[|s| - 1]) then TrimEnd(s[..|s| - 1]) else s
  }

  /**
   * String.prototype.trim: a piece of `s` that neither starts nor ends with white space,
   * empty exactly when `s` is all white space.
   */
  function Trim(s: string): (r: string)
    ensures |r| <= |s|
    ensures r == "" <==> forall i :: 0 <= i < |s| ==> IsJsWhitespace(s[i])
    ensures r != "" ==> !IsJsWhitespace(r[0]) && !IsJsWhitespace(r[|r| - 1])
  {
    TrimEnd(TrimStart(s))
  }

  /** `!!s.trim()`: the query has some non-white-space character. */
  predicate NonBlank(s: string)
  {
    Trim(s) != ""
  }

  /** A query is blank exactly when all its characters are white space. */
  lemma NonBlankIff(s: string)
    ensures NonBlank(s) <==> exists i :: 0 <= i < |s| && !IsJsWhitespace(s[i])
  {
  }

  /** A call made on the room-list store with this component's filter condition. */
  datatype FilterCall = AddFilter | RemoveFilter

  /** The store calls made when the query goes from `before` to `after`. */
  function FilterChange(before: string, after: string): (calls: seq<FilterCall>)
    ensures calls == [AddFilter] <==> !NonBlank(before) && NonBlank(after)
    ensures calls == [RemoveFilter] <==> NonBlank(before) && !NonBlank(after)
    ensures calls == [] <==> (NonBlank(before) <==> NonBlank(after))
  {
    if !NonBlank(before) && NonBlank(after) then [AddFilter]
    else if NonBlank(before) && !NonBlank(after) then [RemoveFilter]
    else []
  }

  /** Calls alternate add, remove, add, ...: never two adds or two removes in a row. */
  ghost predicate Alternating(calls: seq<FilterCall>)
  {
    forall k :: 0 <= k < |calls| ==> calls[k] == (if k % 2 == 0 then AddFilter else RemoveFilter)
  }

  /** Adds minus removes: 1 when the condition is on the store, 0 when it is not. */
  function NetAdds(calls: seq<FilterCall>): int
    decreases |calls|
  {
    if calls == [] then 0
    else NetAdds(calls[..|calls| - 1]) + (if calls[|calls| - 1] == AddFilter then 1 else -1)
  }

  lemma {:induction false} AlternatingNetAdds(calls: seq<FilterCall>)
    requires Alternating(calls)
    ensures NetAdds(calls) == |calls| % 2
    decreases |calls|
  {
    if calls != [] {
      var init := calls[..|calls| - 1];
      assert Alternating(init) by {
        forall k | 0 <= k < |init| ensures init[k] == calls[k] { }
      }
      AlternatingNetAdds(init);
    }
  }

  /** The room list component's state. */
  class RoomList2 {
    /** The search query last received from the parent (props.searchFilter). */
    var propsSearchFilter: string
    /** The query held by this component's name filter condition. */
    var search: string
    var sublists: map<TagId, seq<Room>>
    var layouts: map<TagId, ListLayout>
    /** Every addFilter/removeFilter call made on the store with the filter condition. */
    ghost var filterCalls: seq<FilterCall>

    /** The filter condition is on the store exactly while the stored query is non-blank. */
    ghost predicate Valid()
      reads this
    {
      && Alternating(filterCalls)
      && NetAdds(filterCalls) == (if NonBlank(search) then 1 else 0)
    }

    constructor (searchFilter: string)
      ensures Valid()
      ensures propsSearchFilter == searchFilter && search == ""
      ensures sublists == map[] && layouts == map[] && filterCalls == []
    {
      propsSearchFilter := searchFilter;
      search := "";
      sublists := map[];
      layouts := map[];
      filterCalls := [];
      NonBlankIff("");
    }

    /**
     * The parent passes a new query: when it differs from the previous one the stored query
     * is replaced, and the condition is added on a blank-to-non-blank change and removed on a
     * non-blank-to-blank change.
     */
    method ComponentDidUpdate(newSearchFilter: string)
      requires Valid()
      modifies this`propsSearchFilter, this`search, this`filterCalls
      ensures Valid()
      ensures propsSearchFilter == newSearchFilter
      ensures old(propsSearchFilter) == newSearchFilter ==>
                search == old(search) && filterCalls == old(filterCalls)
      ensures old(propsSearchFilter) != newSearchFilter ==>
                search == newSearchFilter &&
                filterCalls == old(filterCalls) + FilterChange(old(search), newSearchFilter)
    {
      var prevSearchFilter := propsSearchFilter;
      propsSearchFilter := newSearchFilter;
      if prevSearchFilter != newSearchFilter {
        var hadSearch := NonBlank(search);
        var haveSearch := NonBlank(newSearchFilter);
        search := newSearchFilter;
        AlternatingNetAdds(filterCalls);
        if !hadSearch && haveSearch {
          filterCalls := filterCalls + [AddFilter];
        } else if hadSearch && !haveSearch {
          filterCalls := filterCalls + [RemoveFilter];
        }
        AlternatingNetAdds(filterCalls);
      }
    }

    /** The store's "lists updated" event: replace the lists and rebuild the layouts. */
    method OnListsUpdated(newLists: map<TagId, seq<Room>>)
      modifies this`sublists, this`layouts
      ensures sublists == newLists
      ensures layouts.Keys == newLists.Keys
      ensures forall t :: t in layouts ==> layouts[t] == ListLayout(t)
    {
      var layoutMap := BuildLayouts(newLists);
      sublists, layouts := newLists, layoutMap;
    }

    /** The sections to render, in the fixed tag order; this never throws. */
    method RenderSublists() returns (r: Result<seq<Section>, TagId>)
      ensures r == Render(TagOrder, sublists, layouts)
      ensures r.Ok?
    {
      RenderNeverThrows(sublists, layouts);
      r := RenderTags(TagOrder, sublists, layouts);
    }
  }
}
