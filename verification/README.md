# Room list, pills, room-tile icons and the verification toast, modelled in Dafny

This project models four small pieces of the matrix-react-sdk web client and proves
properties of the model.

- **The room list sidebar** (`room_list.dfy`, module `RoomList`):
  - which tag sections are rendered, in which order, and with which display metadata;
  - the per-tag layout map rebuilt on every store update;
  - attaching and detaching the name-search filter condition on the room-list store as the
    query changes between blank and non-blank.
- **pillifyLinks** (`pillify.dfy`, module `Pillify`): the walk over a message's DOM.
  - It turns matrix.to links into link pills.
  - It cuts every text node so that each "@room" token stands alone.
  - When the `.m.rule.roomnotif` push rule exists and matches the event, it swaps those
    tokens for mention pills.
  - The DOM is a tree datatype. A sibling list is a sequence that the walk rewrites, with
    an index standing for the `node` pointer.
  - A pill container holds the DOM rendered for its pill. A later walk enters it like any
    other span, and the class `mx_AtRoomPill` keeps it from wrapping a mention twice.
  - The walk is proved equal to a recursive specification, `Pillify`. The properties are
    proved about that specification.
- **The room tile icon** (`room_tile_icon.dfy`, module `RoomTileIcon`):
  - the presence dot of a two-member direct chat, the globe of a public room, or no icon;
  - the handlers the tile keeps on the DM user and on the room timeline, kept as ghost
    counters and multisets so that leaks show up in the class invariant.
- **The key-verification request toast** (`verification_toast.dfy`, module
  `VerificationToast`):
  - the countdown, in whole seconds;
  - dismissal once the request is resolved;
  - the ordered effects of Decline and Accept, kept in a ghost effect log;
  - the label naming the requesting user.

`wrappers.dfy` holds `Option`, `Result` and `Truthy`. `Truthy` is JavaScript truthiness for
an optional string: present and non-empty.

## Model

| member | source | states |
|---|---|---|
| RoomList.AestheticsFor | src/components/views/rooms/RoomList2.tsx:88-133 | exactly the custom tags have no metadata; every section label is non-empty; a section has an add-room action iff it has an add-room label |
| RoomList.ActionName | src/components/views/rooms/RoomList2.tsx:102-115 | DM's add-room button dispatches `view_create_chat`, Untagged's dispatches `view_create_room`, and the two are told apart |
| RoomList.AestheticsTable | src/components/views/rooms/RoomList2.tsx:88-133 | every tag of the render order has metadata; only Archived is hidden by default; only Invite is an invite section; exactly DM and Untagged have an add-room action and label |
| RoomList.Render | src/components/views/rooms/RoomList2.tsx:176-216 | a successful render has no more sections than tags; a failed one names a tag of the order, and it is a custom tag |
| RoomList.RenderDistinctTags | src/components/views/rooms/RoomList2.tsx:189-212 | with no tag listed twice, a successful render has at most one section per tag, each for a tag of the list |
| RoomList.RenderErrIff | src/components/views/rooms/RoomList2.tsx:189-195 | rendering fails exactly when some shown tag has no metadata, and the error names such a tag |
| RoomList.RenderErrSticky | src/components/views/rooms/RoomList2.tsx:194-195 | the error thrown for one tag ends the render: later tags change nothing |
| RoomList.RenderSelectsVisible | src/components/views/rooms/RoomList2.tsx:179-192 | the rendered sections are exactly the shown tags, in the given order |
| RoomList.VisibleTagsMembers | src/components/views/rooms/RoomList2.tsx:189-192 | a tag is shown iff it is in the order and has rooms or is always visible; a missing list counts as empty |
| RoomList.VisibleTagsSubsequence | src/components/views/rooms/RoomList2.tsx:179-192 | the shown tags are a subsequence of the tag order |
| RoomList.RenderSectionsFaithful | src/components/views/rooms/RoomList2.tsx:194-212 | each rendered section carries its tag's rooms, its tag's metadata and its tag's layout |
| RoomList.RenderNeverThrows | src/components/views/rooms/RoomList2.tsx:194-195 | with the fixed tag order the "does not have aesthetics" error cannot happen |
| RoomList.RenderedTagsInOrder | src/components/views/rooms/RoomList2.tsx:59-72 | the sections are a subsequence of Invite, Favourite, DM, Untagged, LowPriority, ServerNotice, Archived, in that order; a custom tag is never rendered |
| RoomList.RenderedSectionFields | src/components/views/rooms/RoomList2.tsx:197-212 | a rendered section holds its rooms unchanged and its layout; only Archived starts hidden; only DM and Untagged offer add-room, with their own actions |
| RoomList.AllEmptyRendersDmAndUntagged | src/components/views/rooms/RoomList2.tsx:75-78 | with every list empty exactly two sections render: DM, then Untagged |
| RoomList.AllEmptyVisibleTags | src/components/views/rooms/RoomList2.tsx:189-192 | with every list empty the shown tags are DM and Untagged |
| RoomList.RenderTags | src/components/views/rooms/RoomList2.tsx:176-216 | the push loop returns the sections of the shown tags, or the error for the first shown tag without metadata |
| RoomList.BuildLayouts | src/components/views/rooms/RoomList2.tsx:167-170 | the layout map has exactly the tags of the new lists as keys, each with its own layout |
| RoomList.Trim | src/components/views/rooms/RoomList2.tsx:149-150 | the trimmed query is no longer than the query, neither starts nor ends with white space, and is empty iff the query is all ECMAScript white space |
| RoomList.NonBlank | src/components/views/rooms/RoomList2.tsx:149-150 | `!!searchFilter.trim()`: the trimmed query is non-empty |
| RoomList.NonBlankIff | src/components/views/rooms/RoomList2.tsx:149-150 | a trimmed query is non-empty iff the query has a character that is not ECMAScript white space |
| RoomList.FilterChange | src/components/views/rooms/RoomList2.tsx:152-158 | the filter is added exactly on a blank-to-non-blank change, removed exactly on non-blank-to-blank, otherwise the store is untouched |
| RoomList.AlternatingNetAdds | src/components/views/rooms/RoomList2.tsx:147-159 | alternating add/remove calls leave the condition attached iff their number is odd |
| RoomList.RoomList2.constructor | src/components/views/rooms/RoomList2.tsx:138-145 | empty lists and layouts; the condition is off the store and its query is empty |
| RoomList.RoomList2.ComponentDidUpdate | src/components/views/rooms/RoomList2.tsx:147-160 | an unchanged query changes nothing; a changed one is stored and makes the store calls of `FilterChange`; the condition is on the store iff the stored query is non-blank |
| RoomList.RoomList2.OnListsUpdated | src/components/views/rooms/RoomList2.tsx:163-173 | the new lists replace the old, and the layouts are rebuilt with exactly their tags |
| RoomList.RoomList2.RenderSublists | src/components/views/rooms/RoomList2.tsx:176-216 | renders the sections for the fixed tag order, and never throws |
| Pillify.Split | src/utils/pillify.js:63-81 | the pieces a text node is cut into: the text before the first token, the token, then the pieces of the rest |
| Pillify.SplitConcat | src/utils/pillify.js:63-81 | the pieces a text node is cut into, put back together, give the original text |
| Pillify.SplitStable | src/utils/pillify.js:68-81 | every piece is left as it is by a rescan, and every token piece is `roomNotifLen` long |
| Pillify.SplitTokenAt | src/utils/pillify.js:69-78 | each token piece starts where the finder reported it in the text being scanned and covers exactly `roomNotifLen` characters of the original text there |
| Pillify.PiecesInOrder | src/utils/pillify.js:69-78 | the pieces of a text node's split lie left to right in the text without overlapping |
| Pillify.TokenIndicesSpec | src/utils/pillify.js:78 | the collected nodes are exactly the token pieces, each once, in increasing order |
| Pillify.TokensCollected | src/utils/pillify.js:83 | a list of pieces has a token piece iff its collected indices are non-empty |
| Pillify.CutOnceSplit | src/utils/pillify.js:68-81 | one round of the cutting loop cuts off a prefix of the split and leaves a strictly shorter text, so the loop ends |
| Pillify.CutRound | src/utils/pillify.js:69-79 | one round cuts the text before the token and the text after it, and collects the token node |
| Pillify.SplitTextNode | src/utils/pillify.js:63-81 | the cutting loop yields the split of the text and collects the indices of its token pieces |
| Pillify.PiecesReplaced | src/utils/pillify.js:88-105 | once every collected node is a mention pill the siblings read as the replaced split, with nothing else changed |
| Pillify.ReplaceRoomNotifNodes | src/utils/pillify.js:88-105 | every collected node, and only those, becomes a mention pill, and the walk moves to the sibling just after the last one |
| Pillify.AfterLastToken | src/utils/pillify.js:93 | the walk resumes after the last token piece, and everything between it and the old next sibling is plain text |
| Pillify.ReplacedTokens | src/utils/pillify.js:88-108 | resuming after the last replaced token gives the result of the specification, with less text left to walk |
| Pillify.KeptPieces | src/utils/pillify.js:110-117 | without replacement the walk moves to the second piece, and rescanning the remaining pieces changes nothing |
| Pillify.PillifyTextNode | src/utils/pillify.js:54-110 | handling a scanned text node is one step of the specification that shortens what is left to walk |
| Pillify.ReplaceOne | src/utils/pillify.js:113-117 | replacing a node by the walk of it and moving to the next sibling is one step of the specification |
| Pillify.WalkStep | src/utils/pillify.js:27-28 | the walk's loop invariant carries over one step |
| Pillify.Pillify | src/utils/pillify.js:24-119 | the specification of the walk: each sibling in turn is replaced by what the walk makes of it |
| Pillify.PillifyNode | src/utils/pillify.js:31-115 | what the walk makes of one node: a link pill for a pill anchor, the split pieces of a scanned text node, the node with its children walked otherwise (a pill container included) |
| Pillify.PillifyLinks | src/utils/pillify.js:24-119 | the walk over siblings, left to right and into children, returns exactly the specification `Pillify` |
| Pillify.PillAnchorNotEntered | src/utils/pillify.js:31-53 | an anchor with a pill href becomes exactly one container holding the rendered link pill for that href, and its subtree is not walked |
| Pillify.ElementWalked | src/utils/pillify.js:113-115 | any other element, including an anchor without an href or with a non-pill href, stays in place with its children walked |
| Pillify.ContainerWalked | src/utils/pillify.js:113-115 | a pill container met by the walk keeps its pill and has its children walked, under a parent without the class mx_AtRoomPill |
| Pillify.AtRoomPillTextKept | src/utils/pillify.js:54-59 | a text node inside a rendered "@room" pill is not scanned and stays as it is |
| Pillify.InertTreeKept | src/utils/pillify.js:31-81 | a tree with no pill anchor and no token in any text the walk scans is left exactly as it is |
| Pillify.MentionPillKept | src/utils/pillify.js:54-59 | a mention pill left by an earlier walk is entered again and left unchanged, because its rendered elements carry the class mx_AtRoomPill; it is still one mention |
| Pillify.PillifyIdempotent | src/utils/pillify.js:54-115 | walking twice gives what walking once gives: the second walk enters every pill container and stops at the class mx_AtRoomPill, so mentions are never wrapped twice |
| Pillify.NoPillAnchorsAfter | src/utils/pillify.js:31-53 | after the walk no anchor with a pill href is left outside the pills |
| Pillify.NoRuleKeepsText | src/utils/pillify.js:83-86 | when the rule is missing or does not match and no link is pillified, the tree's text and number of mention pills are unchanged |
| Pillify.TextNodeMentions | src/utils/pillify.js:83-105 | when the rule applies, a text node yields one mention pill per collected token (the rendered "@room" pill holding none of its own) |
| Pillify.MentionsPerToken | src/utils/pillify.js:88-105 | the replaced pieces hold one mention pill per token piece |
| RoomTileIcon.IconValue | src/components/views/rooms/RoomTileIcon.tsx:26-33 | every icon value is a non-empty upper-case ASCII word, and only None's is "NONE" |
| RoomTileIcon.IsPublicRoom | src/components/views/rooms/RoomTileIcon.tsx:57-61 | a room is public only when its join rule reads "public"; a room without a join-rules event or field is not |
| RoomTileIcon.PresenceIcon | src/components/views/rooms/RoomTileIcon.tsx:105-120 | no user gives None; active or "online" gives Online and wins; otherwise "offline" gives Offline, "unavailable" gives Away, anything else None; never Globe |
| RoomTileIcon.CalculatedIcon | src/components/views/rooms/RoomTileIcon.tsx:122-143 | a two-member DM never gives Globe: with presence on and a counterpart it is the counterpart's presence icon, otherwise None; any other room gives Globe iff it is public, else None |
| RoomTileIcon.Lower | src/components/views/rooms/RoomTileIcon.tsx:148 | lower-casing keeps the length and lowers each upper-case letter |
| RoomTileIcon.RenderClass | src/components/views/rooms/RoomTileIcon.tsx:145-148 | None renders nothing; any other icon renders the classes `mx_RoomTileIcon mx_RoomTileIcon_` followed, character by character, by its lower-cased value |
| RoomTileIcon.RenderClassInjective | src/components/views/rooms/RoomTileIcon.tsx:26-33 | distinct icons render distinct classes |
| RoomTileIcon.RoomTileIcon.SetDmUser | src/components/views/rooms/RoomTileIcon.tsx:67-78 | a different user swaps the old user's two handlers for the new user's two; the same user changes nothing; handlers stay exactly on the current user |
| RoomTileIcon.RoomTileIcon.CalculateIcon | src/components/views/rooms/RoomTileIcon.tsx:122-143 | returns `CalculatedIcon`; sets the DM user only when presence is tracked; starts watching the timeline, once, for any room that is not a two-member DM |
| RoomTileIcon.RoomTileIcon.constructor | src/components/views/rooms/RoomTileIcon.tsx:49-55 | the first icon is `CalculatedIcon`, with the handlers it implies and nothing else registered |
| RoomTileIcon.RoomTileIcon.OnRoomTimeline | src/components/views/rooms/RoomTileIcon.tsx:86-96 | only a join-rules or membership event on this room, while mounted, recomputes: the icon is `CalculatedIcon`, the DM user is set when presence is tracked, and the timeline is watched for a room that is not a two-member DM; anything else changes nothing; handlers stay exactly on the DM user |
| RoomTileIcon.RoomTileIcon.OnPresenceUpdate | src/components/views/rooms/RoomTileIcon.tsx:98-103 | after unmount the icon is unchanged; otherwise it becomes the DM user's presence icon |
| RoomTileIcon.RoomTileIcon.ComponentWillUnmount | src/components/views/rooms/RoomTileIcon.tsx:80-84 | no presence or timeline handler stays registered, and the DM user is cleared |
| VerificationToast.InitialCounter | src/components/views/toasts/VerificationRequestToast.js:30 | the counter is the least whole number of seconds covering the timeout |
| VerificationToast.InitialCounterOfNonNegative | src/components/views/toasts/VerificationRequestToast.js:30 | for a timeout of zero or more this is `(timeout + 999) / 1000` |
| VerificationToast.Tick | src/components/views/toasts/VerificationRequestToast.js:37 | a tick never goes below zero, and never counts up from a non-negative count |
| VerificationToast.TicksClosedForm | src/components/views/toasts/VerificationRequestToast.js:35-39 | after n ticks the counter is max(0, c0 - n), never negative from a non-negative start, and zero once n >= c0 |
| VerificationToast.IsResolved | src/components/views/toasts/VerificationRequestToast.js:49-54 | the request is resolved iff at least one of ready, started, done, cancelled and observe-only is set |
| VerificationToast.PendingCheckEffects | src/components/views/toasts/VerificationRequestToast.js:49-54 | a change dismisses the toast iff the request is ready, started, done, cancelled or observe-only, and does nothing else |
| VerificationToast.CancelEffects | src/components/views/toasts/VerificationRequestToast.js:56-63 | Decline dismisses first and then cancels the request |
| VerificationToast.AcceptEffects | src/components/views/toasts/VerificationRequestToast.js:65-87 | Accept dismisses first and always accepts the request |
| VerificationToast.AcceptEffectsOrdered | src/components/views/toasts/VerificationRequestToast.js:65-87 | the room is viewed, not peeking, iff the event has a room id; the panel opens iff accepting succeeds; view before accept before panel |
| VerificationToast.NameLabel | src/components/views/toasts/VerificationRequestToast.js:93-102 | the room-derived label when the event has a room and it differs from the user id; otherwise "name (id)" when the sender has a display name, else the user id |
| VerificationToast.VerificationRequestToast.constructor | src/components/views/toasts/VerificationRequestToast.js:28-31 | the counter starts at `InitialCounter(timeout)`; nothing is running or registered |
| VerificationToast.VerificationRequestToast.ComponentDidMount | src/components/views/toasts/VerificationRequestToast.js:33-41 | the interval starts and exactly one change handler is registered |
| VerificationToast.VerificationRequestToast.ComponentWillUnmount | src/components/views/toasts/VerificationRequestToast.js:43-47 | the interval stops and no change handler stays registered |
| VerificationToast.VerificationRequestToast.OnTick | src/components/views/toasts/VerificationRequestToast.js:35-39 | the counter becomes `Tick` of the old counter, never negative |
| VerificationToast.VerificationRequestToast.CheckRequestIsPending | src/components/views/toasts/VerificationRequestToast.js:49-54 | logs exactly the effects of `PendingCheckEffects` |
| VerificationToast.VerificationRequestToast.Cancel | src/components/views/toasts/VerificationRequestToast.js:56-63 | logs exactly the effects of `CancelEffects` |
| VerificationToast.VerificationRequestToast.Accept | src/components/views/toasts/VerificationRequestToast.js:65-87 | logs exactly the effects of `AcceptEffects` |

## Left out

- React rendering is not modelled: JSX, `ReactDOM.render` of the pills, `RovingTabIndexProvider`, and the sublist, button and toast elements. Sections, pills and effects are plain data.
- What `ReactDOM.render` puts into a pill's container is a parameter, `renderPill`. The Pill component is not part of this model.
- Pillify.PillifyIdempotent: assumes two things of the Pill component. The "@room" pill renders elements with the class `mx_AtRoomPill` that hold only text and no pill anchor (`AtRoomPillDom`). A rendered link pill holds no pill anchor, and no token in any text a walk scans (`LinkPillsInert`). Without this, a second walk acts inside a link pill. An anchor whose href passes the pill-URL test gets a pill nested in it. A display name containing "@room" is scanned, and its token is wrapped in a mention pill.
- Pillify.TextNodeMentions: assumes the "@room" pill's own DOM holds no mention pill (`AtRoomPillDom`).
- Localisation (`_t`, `_td`) is not modelled. Section labels are the English keys. The toast's "name (id)" label uses the English format. The "Decline (counter)" button label is not modelled.
- Timers and async are not modelled. The one-second interval is a tick step. The outcome of `await request.accept()` is an input. Wall-clock time and interleavings are not modelled.
- Console logging is left out. That includes the error logged when cancelling throws, which the toast swallows, so Decline always has its two effects.
- Collaborators whose code is not part of this model are parameters:
  - `Pill.isMessagePillUrl`, `Pill.roomNotifPos` and `Pill.roomNotifLen`;
  - the push rule lookup and `ruleMatchesEvent`;
  - `DMRoomMap`, `MatrixClientPeg` users, `isPresenceEnabled`, `userLabelForEventRoom`.
- Effect logs stand for calls into collaborators: `ToastStore` and the dispatcher (toast effect log), and `RoomListStore` filter calls (`filterCalls`).
- `NameFilterCondition` and `ListLayout` are not part of this model. The condition is its stored query, and a layout is its tag.
- Pillify.PillifyLinks: the finder's contract is a precondition (`ValidFinder`). It returns a negative number, or the position of the first token, which lies inside the text, with a positive token length. The real finder is not part of this model.
- The DOM is a tree of values. Node identity and aliasing are not modelled. `splitText` and `replaceChild` become rewrites of the sibling sequence.
- A text node is scanned unless its parent has class `mx_AtRoomPill`. pillifyLinks reads `parentElement`, so it would throw on a text node without a parent element. The model takes the parent's class as a parameter, so that case is not modelled.
- `src/components/structures/RoomSearch.tsx` is not modelled. It is input plumbing around the query that `RoomList2` receives.
- The listener that `RoomList2.componentDidMount` puts on the store is not modelled, and neither is its registration, which is never removed. Its handler is modelled as `OnListsUpdated`.
- RoomList.RoomList2.constructor: a non-blank query given at mount is stored as a prop, but RoomList2 attaches the condition only in `componentDidUpdate`. So the condition is attached on the first change of the query, not at mount. The model follows RoomList2, and the condition's initial query is taken as empty.
- RoomList: a custom tag `Custom(name)` is taken to name no default tag. The model does not identify `Custom("im.vector.fake.direct")` with `DM`, although both stand for the same tag string. Only the fixed default-tag order is rendered, so no property here depends on it.
- Users are identified by their user id. A user object the client does not know is absent.
- RoomTileIcon.Lower: lower-cases ASCII letters only. The icon values are upper-case ASCII, so `toLowerCase` agrees on them.
- VerificationToast.InitialCounter: the timeout is an integer number of milliseconds. A fractional timeout and other non-integer JavaScript numbers are not modelled.
- JavaScript numbers (member counts, counters, positions) are unbounded integers.
