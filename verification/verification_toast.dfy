/**
 * The toast shown for an incoming key-verification request: a countdown of whole seconds
 * until the request times out, dismissal once the request stops pending, and the ordered
 * effects of its Decline and Accept buttons.
 */
module VerificationToast {
  import opened Wrappers

  // ---- Countdown ----

  /** The starting count: the request's timeout in milliseconds, rounded up to whole seconds. */
  function InitialCounter(timeout: int): (c: int)
    ensures 1000 * (c - 1) < timeout <= 1000 * c
  {
    // `/` here rounds down for a positive divisor, so negating twice rounds up
    -((-timeout) / 1000)
  }

  /** For a timeout of zero or more, rounding up is adding 999 before dividing. */
  lemma InitialCounterOfNonNegative(timeout: int)
    requires timeout >= 0
    ensures InitialCounter(timeout) == (timeout + 999) / 1000
    ensures InitialCounter(timeout) >= 0
  {
    var c := InitialCounter(timeout);
    var d := (timeout + 999) / 1000;
    assert 1000 * d <= timeout + 999 < 1000 * (d + 1);
  }

  /** One interval tick: count down by one second, never below zero. */
  function Tick(counter: int): (next: int)
    ensures next >= 0
    ensures next <= counter || counter < 0
  {
    if counter - 1 > 0 then counter - 1 else 0
  }

  /** The count after `n` ticks. */
  function Ticks(counter: int, n: nat): int
  {
    if n == 0 then counter else Tick(Ticks(counter, n - 1))
  }

  /**
   * After `n` ticks (at least one) the count is the start minus `n`, floored at zero: it
   * never goes negative and, once at zero, stays there.
   */
  lemma {:induction false} TicksClosedForm(counter: int, n: nat)
    ensures n > 0 ==> Ticks(counter, n) == if counter - n > 0 then counter - n else 0
    ensures counter >= 0 ==> Ticks(counter, n) >= 0
    ensures n >= counter && n > 0 ==> Ticks(counter, n) == 0
  {
    if n > 0 {
      TicksClosedForm(counter, n - 1);
    }
  }

  // ---- Request state and effects ----

  /** The flags of the verification request that the toast looks at. */
  datatype RequestState = RequestState(ready: bool, started: bool, done: bool, cancelled: bool, observeOnly: bool)

  /** The request no longer waits for this user's answer. */
  predicate IsResolved(req: RequestState)
    ensures IsResolved(req) <==> req != RequestState(false, false, false, false, false)
  {
    req.ready || req.started || req.done || req.cancelled || req.observeOnly
  }

  datatype RightPanelPhase = EncryptionPanel

  /** What the toast does to the world outside it: the toast store, the dispatcher, the request. */
  datatype Effect =
    | DismissToast(toastKey: string)
    | CancelRequest
    | ViewRoom(roomId: string, shouldPeek: bool)
    | AcceptRequest
    | SetRightPanelPhase(phase: RightPanelPhase)

  /** A change of the request dismisses the toast when the request is resolved, and does nothing else. */
  function PendingCheckEffects(toastKey: string, req: RequestState): (effects: seq<Effect>)
    ensures effects == [DismissToast(toastKey)] <==> IsResolved(req)
    ensures effects == [] <==> !IsResolved(req)
  {
    if IsResolved(req) then [DismissToast(toastKey)] else []
  }

  /** Decline: dismiss first, then cancel the request (an error from cancelling is swallowed). */
  function CancelEffects(toastKey: string): (effects: seq<Effect>)
    ensures |effects| == 2 && effects[0] == DismissToast(toastKey) && effects[1] == CancelRequest
  {
    [DismissToast(toastKey), CancelRequest]
  }

  /**
   * Accept: dismiss first; open the request's room (not peeking) when the event has one;
   * accept the request; and open the encryption panel only when accepting succeeds.
   */
  function AcceptEffects(toastKey: string, eventRoomId: Option<string>, acceptSucceeds: bool): (effects: seq<Effect>)
    ensures |effects| > 0 && effects[0] == DismissToast(toastKey)
    ensures AcceptRequest in effects
  {
    [DismissToast(toastKey)]
    + (if Truthy(eventRoomId) then [ViewRoom(eventRoomId.value, false)] else [])
    + [AcceptRequest]
    + (if acceptSucceeds then [SetRightPanelPhase(EncryptionPanel)] else [])
  }

  /**
   * The order of Accept's effects: the room is viewed exactly when the event has a room id,
   * never peeking; the panel opens exactly when accepting succeeds; the room view comes
   * before accepting, and accepting before the panel.
   */
  lemma AcceptEffectsOrdered(toastKey: string, eventRoomId: Option<string>, acceptSucceeds: bool)
    ensures var effects := AcceptEffects(toastKey, eventRoomId, acceptSucceeds);
            && ((exists i :: 0 <= i < |effects| && effects[i].ViewRoom?) <==> Truthy(eventRoomId))
            && (forall i :: 0 <= i < |effects| && effects[i].ViewRoom? ==>
                  effects[i] == ViewRoom(eventRoomId.value, false))
            && (SetRightPanelPhase(EncryptionPanel) in effects <==> acceptSucceeds)
            && (forall i, j ::
                  (0 <= i < |effects| && 0 <= j < |effects| && effects[i].ViewRoom? && effects[j].AcceptRequest?)
                  ==> i < j)
            && (forall i, j ::
                  (0 <= i < |effects| && 0 <= j < |effects| && effects[i].AcceptRequest? && effects[j].SetRightPanelPhase?)
                  ==> i < j)
  {
    var effects := AcceptEffects(toastKey, eventRoomId, acceptSucceeds);
    var view: seq<Effect> := if Truthy(eventRoomId) then [ViewRoom(eventRoomId.value, false)] else [];
    var panel: seq<Effect> := if acceptSucceeds then [SetRightPanelPhase(EncryptionPanel)] else [];
    assert effects == [DismissToast(toastKey)] + view + [AcceptRequest] + panel;
    if Truthy(eventRoomId) {
      assert effects[1].ViewRoom?;
    }
    if acceptSucceeds {
      assert effects[|effects| - 1] == SetRightPanelPhase(EncryptionPanel);
    }
  }

  // ---- Name label ----

  /** The label that names a user by display name and id. */
  function DisplayLabel(name: string, userId: string): string
  {
    name + " (" + userId + ")"
  }

  /**
   * Who is asking: the label derived from the request's room when the event has one, else
   * the other user's id; a label that is just the id becomes "name (id)" when the sender is
   * a known user with a display name.
   */
  function NameLabel(eventRoomId: Option<string>, otherUserId: string, roomLabel: string,
                     senderDisplayName: Option<string>): (shown: string)
    ensures Truthy(eventRoomId) && roomLabel != otherUserId ==> shown == roomLabel
    ensures (!Truthy(eventRoomId) || roomLabel == otherUserId) && Truthy(senderDisplayName) ==>
              shown == DisplayLabel(senderDisplayName.value, otherUserId)
    ensures (!Truthy(eventRoomId) || roomLabel == otherUserId) && !Truthy(senderDisplayName) ==>
              shown == otherUserId
  {
    var nameLabel := if Truthy(eventRoomId) then roomLabel else otherUserId;
    if nameLabel == otherUserId && Truthy(senderDisplayName) then
      DisplayLabel(senderDisplayName.value, otherUserId)
    else nameLabel
  }

  // ---- The component ----

  /** The toast component, with its effects on the outside world logged in `effects`. */
  class VerificationRequestToast {
    const toastKey: string
    /** The seconds left, as shown on the Decline button. */
    var counter: int
    /** Whether the one-second interval is running. */
    var intervalRunning: bool
    /** How many change handlers the toast has registered on the request. */
    ghost var changeListeners: nat
    ghost var effects: seq<Effect>

    /** The interval runs exactly while the change handler is registered, and only once. */
    ghost predicate Valid()
      reads this
    {
      changeListeners == if intervalRunning then 1 else 0
    }

    constructor (timeout: int, toastKey: string)
      ensures Valid() && !intervalRunning
      ensures counter == InitialCounter(timeout) && this.toastKey == toastKey
      ensures changeListeners == 0 && effects == []
    {
      this.toastKey := toastKey;
      counter := InitialCounter(timeout);
      intervalRunning := false;
      changeListeners := 0;
      effects := [];
    }

    /** Mount: start the countdown and listen for changes of the request. */
    method ComponentDidMount()
      requires Valid() && !intervalRunning
      modifies this`intervalRunning, this`changeListeners
      ensures Valid() && intervalRunning && changeListeners == 1
    {
      intervalRunning := true;
      changeListeners := changeListeners + 1;
    }

    /** Unmount: stop the countdown and stop listening; nothing is left registered. */
    method ComponentWillUnmount()
      requires Valid()
      modifies this`intervalRunning, this`changeListeners
      ensures Valid() && !intervalRunning && changeListeners == 0
    {
      intervalRunning := false;
      if changeListeners > 0 {
        changeListeners := changeListeners - 1;
      }
    }

    /** The interval callback: one second less, floored at zero. */
    method OnTick()
      modifies this`counter
      ensures counter == Tick(old(counter))
      ensures counter >= 0
    {
      var c := counter;
      c := if c - 1 > 0 then c - 1 else 0;
      counter := c;
    }

    /** The request changed: dismiss the toast once it is no longer pending. */
    method CheckRequestIsPending(req: RequestState)
      modifies this`effects
      ensures effects == old(effects) + PendingCheckEffects(toastKey, req)
    {
      if req.ready || req.started || req.done || req.cancelled || req.observeOnly {
        effects := effects + [DismissToast(toastKey)];
      }
    }

    /** The Decline button. */
    method Cancel()
      modifies this`effects
      ensures effects == old(effects) + CancelEffects(toastKey)
    {
      effects := effects + [DismissToast(toastKey)];
      effects := effects + [CancelRequest];
    }

    /** The Accept button; whether accepting the request succeeds is given. */
    method Accept(eventRoomId: Option<string>, acceptSucceeds: bool)
      modifies this`effects
      ensures effects == old(effects) + AcceptEffects(toastKey, eventRoomId, acceptSucceeds)
    {
      ghost var before := effects;
      effects := effects + [DismissToast(toastKey)];
      if Truthy(eventRoomId) {
        effects := effects + [ViewRoom(eventRoomId.value, false)];
      }
      effects := effects + [AcceptRequest];
      if acceptSucceeds {
        effects := effects + [SetRightPanelPhase(EncryptionPanel)];
      }
      assert effects == before + AcceptEffects(toastKey, eventRoomId, acceptSucceeds);
    }
  }
}
