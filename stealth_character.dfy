/** The player character's own logic: the pickup/hold/drop state machine over
    one nullable held-item reference, the crouch toggle, and the capsule
    radius that grows while crouched and is restored when the crouch ends. */
module StealthCharacter {
  import opened PickableItem

  /** Which of HoldItem's three branches ran (each logs its own message). */
  datatype HoldOutcome = NothingHeld | Attached | AttachFailed

  /** Mesh state of a pickable item lying free in the level. */
  const FreeMesh: MeshPhysics := MeshPhysics(true, PhysicsOnly, Overlap)
  /** Mesh state of a pickable item in the character's hands. */
  const HeldMesh: MeshPhysics := MeshPhysics(false, NoCollision, Overlap)

  /** Index of the first overlapping actor tagged "Pickup", if any: the
      actor Pickup's scan stops at. */
  function FirstPickup(overlaps: seq<Actor>): (r: Option<nat>)
    reads overlaps
    ensures r.Some? ==> r.value < |overlaps| && overlaps[r.value].HasTag(PickupTag)
    ensures r.Some? ==> forall j :: 0 <= j < r.value ==> !overlaps[j].HasTag(PickupTag)
    ensures r.None? <==> forall j :: 0 <= j < |overlaps| ==> !overlaps[j].HasTag(PickupTag)
    decreases |overlaps|
  {
    if overlaps == [] then None
    else if overlaps[0].HasTag(PickupTag) then Some(0)
    else match FirstPickup(overlaps[1..])
      case None => None
      case Some(k) => Some(k + 1)
  }

  /** The value of bWantsToCrouch after `presses` crouch presses. */
  function CrouchFlagAfter(flag: bool, hasMovement: bool, presses: nat): (r: bool)
    decreases presses
  {
    if presses == 0 then flag
    else CrouchFlagAfter(if hasMovement then !flag else flag, hasMovement, presses - 1)
  }

  /** Each press negates the flag, so an even number of presses restores it. */
  lemma {:induction false} CrouchFlagParity(flag: bool, hasMovement: bool, presses: nat)
    ensures CrouchFlagAfter(flag, hasMovement, presses) == (if hasMovement && presses % 2 == 1 then !flag else flag)
    decreases presses
  {
    if presses > 0 {
      CrouchFlagParity(if hasMovement then !flag else flag, hasMovement, presses - 1);
    }
  }

  /** The default argument of SetCapsuleProperties: leave that dimension. */
  const NoChange: real := -1.0

  /** A capsule dimension after a request: negative requests leave it. */
  function ResizedDimension(current: real, requested: real): (r: real)
    ensures requested >= 0.0 ==> r == requested
    ensures requested < 0.0 ==> r == current
  {
    if requested >= 0.0 then requested else current
  }

  /** The two capsule callbacks the movement component makes. */
  datatype CrouchEvent = StartCrouch | EndCrouch

  /** The radius each callback requests, from the radius recorded at
      BeginPlay and the crouch expansion factor. */
  function CrouchTarget(initial: real, expand: real, e: CrouchEvent): (r: real)
  {
    match e
    case StartCrouch => initial * expand
    case EndCrouch => initial
  }

  /** The capsule radius after the callbacks `events`, in order. */
  function RadiusAfter(radius: real, initial: real, expand: real, events: seq<CrouchEvent>): (r: real)
    decreases |events|
  {
    if events == [] then radius
    else RadiusAfter(ResizedDimension(radius, CrouchTarget(initial, expand, events[0])), initial, expand, events[1..])
  }

  /** Whenever the last callback ends a crouch, the radius is exactly the
      one recorded at BeginPlay, whatever came before. */
  lemma {:induction false} EndCrouchRestoresInitial(radius: real, initial: real, expand: real, events: seq<CrouchEvent>)
    requires 0.0 <= initial
    requires events != [] && events[|events| - 1] == EndCrouch
    ensures RadiusAfter(radius, initial, expand, events) == initial
    decreases |events|
  {
    if |events| > 1 {
      EndCrouchRestoresInitial(ResizedDimension(radius, CrouchTarget(initial, expand, events[0])), initial, expand, events[1..]);
    }
  }

  /** Starting from the recorded radius, the radius only ever takes the
      recorded value or the expanded one. */
  lemma {:induction false} RadiusStaysRecordedOrExpanded(radius: real, initial: real, expand: real, events: seq<CrouchEvent>)
    requires 0.0 <= initial
    requires radius == initial || radius == initial * expand
    ensures RadiusAfter(radius, initial, expand, events) in {initial, initial * expand}
    decreases |events|
  {
    if events != [] {
      RadiusStaysRecordedOrExpanded(ResizedDimension(radius, CrouchTarget(initial, expand, events[0])), initial, expand, events[1..]);
    }
  }

  /** The player character (AStealthProjectCharacter). */
  class Character {
    /** Whether GetCapsuleComponent() returns a component. */
    const hasCapsule: bool
    /** Whether GetCharacterMovement() returns a component. */
    const hasMovement: bool
    const crouchedCapsuleExpand: real
    var heldItem: Actor?
    /** The movement component's bWantsToCrouch. */
    var wantsToCrouch: bool
    var radius: real
    var halfHeight: real
    /** fCapsuleInitialRadius, recorded at BeginPlay. */
    var initialRadius: real

    constructor (hasCapsule: bool, hasMovement: bool)
      ensures this.hasCapsule == hasCapsule && this.hasMovement == hasMovement
      ensures heldItem == null && !wantsToCrouch
      ensures hasCapsule ==> radius == 42.0 && halfHeight == 96.0
      ensures crouchedCapsuleExpand == 1.3
    {
      this.hasCapsule := hasCapsule;
      this.hasMovement := hasMovement;
      crouchedCapsuleExpand := 1.3;
      heldItem := null;
      wantsToCrouch := false;
      radius, halfHeight := 42.0, 96.0;
      initialRadius := 0.0;
    }

    /** Every pickable item of `world` with a mesh is in the held
        configuration exactly when it is the held item and in the free one
        otherwise, and only the held item can be attached to the socket. */
    ghost predicate HoldingConsistent(world: set<Actor>)
      reads this, world
    {
      forall a :: a in world ==>
        && (a.isPickable && a.hasMesh ==> a.Physics() == Some(if a == heldItem then HeldMesh else FreeMesh))
        && (a.attached ==> a == heldItem)
    }

    function IsHoldingItem(): (r: bool)
      reads this
      ensures r <==> heldItem != null
    {
      heldItem != null
    }

    /** The character's BeginPlay, as far as this model goes: record the
        capsule radius. The capsule is used without a null check there. */
    method BeginPlay()
      requires hasCapsule
      modifies this`initialRadius
      ensures initialRadius == radius
    {
      initialRadius := radius;
    }

    /** The pickup input action: drop what is held, otherwise take the first
        overlapping actor tagged "Pickup". The engine's overlap set is
        `overlaps`, in the order the engine enumerates it. */
    method Pickup(overlaps: seq<Actor>, ghost world: set<Actor>)
      modifies this`heldItem, heldItem, overlaps
      ensures forall a :: a in overlaps ==> a.tags == old(a.tags)
      ensures IsHoldingItem() <==> !old(IsHoldingItem()) && old(FirstPickup(overlaps)).Some?
      // holding something: drop it, touching nothing else
      ensures old(heldItem) != null ==>
        var h := old(heldItem);
        && heldItem == null
        && !h.attached
        && h.tags == old(h.tags)
        && h.Physics() == (if h.isPickable then EnabledPhysics(old(h.Physics())) else old(h.Physics()))
        && forall a :: a in overlaps && a != h ==> unchanged(a)
      // empty hands, nothing tagged: nothing changes
      ensures old(heldItem) == null && old(FirstPickup(overlaps)).None? ==>
        heldItem == null && forall a :: a in overlaps ==> unchanged(a)
      // empty hands: the first tagged actor is taken, later ones are untouched
      ensures old(heldItem) == null && old(FirstPickup(overlaps)).Some? ==>
        var p := overlaps[old(FirstPickup(overlaps)).value];
        && heldItem == p
        && p.attached == old(p.attached)
        && p.Physics() == (if p.isPickable then DisabledPhysics(old(p.Physics())) else old(p.Physics()))
        && forall a :: a in overlaps && a != p ==> unchanged(a)
      ensures old(HoldingConsistent(world)) ==> HoldingConsistent(world)
    {
      if heldItem != null {
        DropItem();
      } else {
        ghost var first := FirstPickup(overlaps);
        var i := 0;
        while i < |overlaps|
          invariant 0 <= i <= |overlaps|
          invariant heldItem == null
          invariant forall j :: 0 <= j < i ==> !overlaps[j].HasTag(PickupTag)
          invariant forall a :: a in overlaps ==> unchanged(a)
        {
          if overlaps[i].HasTag(PickupTag) {
            assert first == Some(i);
            PickItem(overlaps[i]);
            break;
          }
          i := i + 1;
        }
      }
    }

    /** Take `item`: its physics is disabled when it is a pickable item, and
        it becomes the held item whatever it is. The attach that the game
        schedules on a timer here is the separate step HoldItem. */
    method PickItem(item: Actor)
      modifies this`heldItem, item`simulate, item`collision
      ensures heldItem == item
      ensures item.Physics() == (if item.isPickable then DisabledPhysics(old(item.Physics())) else old(item.Physics()))
      ensures !item.isPickable ==> unchanged(item)
    {
      if item.isPickable {
        item.DisablePhysics();
      }
      heldItem := item;
    }

    /** The delayed attach of the held item to the hand socket; whether the
        engine's attach succeeds is `attachSucceeds`. */
    method HoldItem(attachSucceeds: bool, ghost world: set<Actor>) returns (outcome: HoldOutcome)
      modifies heldItem
      ensures heldItem == old(heldItem)
      ensures heldItem == null ==> outcome == NothingHeld
      ensures heldItem != null ==>
        && outcome == (if attachSucceeds then Attached else AttachFailed)
        && heldItem.attached == (old(heldItem.attached) || attachSucceeds)
        && heldItem.Physics() == old(heldItem.Physics())
        && heldItem.tags == old(heldItem.tags)
      ensures old(HoldingConsistent(world)) ==> HoldingConsistent(world)
    {
      if heldItem == null {
        return NothingHeld;
      }
      if attachSucceeds {
        heldItem.attached := true;
        outcome := Attached;
      } else {
        outcome := AttachFailed;
      }
    }

    /** Detach the held item, re-enable its physics when it is a pickable
        item, and clear the reference; a no-op when nothing is held. */
    method DropItem()
      modifies this`heldItem, heldItem
      ensures heldItem == null
      ensures old(heldItem) != null ==>
        var h := old(heldItem);
        && !h.attached
        && h.tags == old(h.tags)
        && h.Physics() == (if h.isPickable then EnabledPhysics(old(h.Physics())) else old(h.Physics()))
    {
      if heldItem == null {
        return;
      }
      heldItem.attached := false;
      if heldItem.isPickable {
        heldItem.EnablePhysics();
      }
      heldItem := null;
    }

    /** The crouch input action: negate bWantsToCrouch when the movement
        component is present. */
    method TriggerCrouch()
      modifies this`wantsToCrouch
      ensures wantsToCrouch == CrouchFlagAfter(old(wantsToCrouch), hasMovement, 1)
      ensures hasMovement ==> wantsToCrouch == !old(wantsToCrouch)
    {
      if hasMovement {
        wantsToCrouch := !wantsToCrouch;
      }
    }

    /** Resize the capsule; a negative argument leaves that dimension. */
    method SetCapsuleProperties(newRadius: real, newHalfHeight: real)
      modifies this`radius, this`halfHeight
      ensures radius == (if hasCapsule then ResizedDimension(old(radius), newRadius) else old(radius))
      ensures halfHeight == (if hasCapsule then ResizedDimension(old(halfHeight), newHalfHeight) else old(halfHeight))
    {
      if hasCapsule {
        if newRadius >= 0.0 {
          radius := newRadius;
        }
        if newHalfHeight >= 0.0 {
          halfHeight := newHalfHeight;
        }
      }
    }

    method OnStartCrouch()
      modifies this`radius, this`halfHeight
      ensures radius == (if hasCapsule then RadiusAfter(old(radius), initialRadius, crouchedCapsuleExpand, [StartCrouch]) else old(radius))
      ensures halfHeight == old(halfHeight)
    {
      SetCapsuleProperties(initialRadius * crouchedCapsuleExpand, NoChange);
    }

    method OnEndCrouch()
      modifies this`radius, this`halfHeight
      ensures radius == (if hasCapsule then RadiusAfter(old(radius), initialRadius, crouchedCapsuleExpand, [EndCrouch]) else old(radius))
      ensures halfHeight == old(halfHeight)
    {
      SetCapsuleProperties(initialRadius, NoChange);
    }
  }

  /** HoldItem attaches whatever is held when it runs and never compares it
      with the item whose pickup armed it: after picking one item, dropping
      it and picking a second, the attach step takes the second item and
      leaves the first detached. */
  method LateAttachTakesCurrentItem() returns (first: Actor, second: Actor, outcome: HoldOutcome)
    ensures first != second
    ensures outcome == Attached && second.attached && !first.attached
    ensures first.Physics() == Some(FreeMesh) && second.Physics() == Some(HeldMesh)
  {
    var c := new Character(true, true);
    first := new Actor(true, true, [PickupTag], FreeMesh);
    second := new Actor(true, true, [PickupTag], FreeMesh);
    ghost var world := {first, second};
    assert c.HoldingConsistent(world);
    c.Pickup([first], world);
    c.Pickup([first], world);
    c.Pickup([second], world);
    outcome := c.HoldItem(true, world);
    assert c.HoldingConsistent(world);
  }
}
