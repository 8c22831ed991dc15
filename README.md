# Stealth project: pickup state machine and item physics

This project models the gameplay logic that the stealth game's module adds on
top of its engine. Two actors take part.

- The **pickable item** (`APickableItem`) owns a physics mesh that may be
  absent. It switches the mesh between two configurations:
  - *free*: simulating, collision `PhysicsOnly`, Pawn channel `Overlap`;
  - *held*: not simulating, `NoCollision`, Pawn response untouched.

  At BeginPlay it enables physics and adds the tag `"Pickup"` unless the tag
  is already there.
- The **player character** (`AStealthProjectCharacter`) holds at most one
  item through a nullable `HeldItem` reference. The Pickup action does one of
  two things:
  - if something is held, it drops it: detach, re-enable physics, clear the
    reference;
  - otherwise it scans the overlapping actors in the engine's order and takes
    the first one tagged `"Pickup"`: disable physics, record the reference.

  A delayed step, HoldItem, later attaches the held actor to the socket
  `"WeaponSocket"` on the character's mesh. The character also toggles a
  crouch flag. On crouch start it widens its capsule to the radius recorded
  at BeginPlay times a factor, and on crouch end it restores the recorded
  radius. Capsule resizing uses a
  "negative means leave unchanged" sentinel.

Module `PickableItem` (`pickable_item.dfy`) holds the `Actor` class. One class
stands for every engine actor; `isPickable` says whether `Cast<APickableItem>`
would succeed. The module also holds the physics toggles as functions on mesh
states, and lemmas about sequences of toggle calls.

Module `StealthCharacter` (`stealth_character.dfy`) holds the `Character`
class and the specification of the first-match scan. It also holds the crouch
and capsule functions and their lemmas, and an invariant that ties each
item's physics configuration to whether it is held.

Engine inputs become parameters:
- the overlap set is a `seq<Actor>` in enumeration order;
- the outcome of the engine's attach call is a `bool`;
- a missing mesh, capsule or movement component is a `const` flag on the
  owning object.

## Model

| member | source | states |
|---|---|---|
| `PickableItem.EnabledPhysics` | Source/StealthProject/PickableItem.cpp:31-42 | enabling leaves a present mesh simulating, `PhysicsOnly`, Pawn response `Overlap`; an absent mesh stays absent |
| `PickableItem.DisabledPhysics` | Source/StealthProject/PickableItem.cpp:22-29 | disabling leaves a present mesh not simulating and `NoCollision`, with the Pawn response it had; an absent mesh stays absent |
| `PickableItem.RepeatedCallActsOnce` | Source/StealthProject/PickableItem.cpp:22-42 | both toggles are idempotent: n+1 calls of one toggle leave the mesh as one call does |
| `PickableItem.LastCallDecides` | Source/StealthProject/PickableItem.cpp:22-42 | after any non-empty sequence of toggle calls, simulate and collision are determined by the last call alone |
| `PickableItem.PawnResponseAfterCalls` | Source/StealthProject/PickableItem.cpp:22-42 | toggle sequences never create or remove a mesh; the Pawn response is `Overlap` iff an enable occurred, else the original one |
| `PickableItem.AddUnique` | Source/StealthProject/PickableItem.cpp:52 | the tag ends up present, existing tags are kept in order, at most one is appended, and nothing changes if the tag was there (no duplicate) |
| `PickableItem.Actor.constructor` | Source/StealthProject/PickableItem.cpp:10-20 | a new actor has the given kind, mesh presence, tags and mesh state, and is not attached |
| `PickableItem.Actor.DisablePhysics` | Source/StealthProject/PickableItem.cpp:22-29 | the mesh state becomes `DisabledPhysics` of the old one; Pawn response kept; nothing changes without a mesh |
| `PickableItem.Actor.EnablePhysics` | Source/StealthProject/PickableItem.cpp:31-42 | the mesh state becomes `EnabledPhysics` of the old one; nothing changes without a mesh |
| `PickableItem.Actor.BeginPlay` | Source/StealthProject/PickableItem.cpp:45-53 | physics is enabled; the tags become `AddUnique(old tags, "Pickup")`, so "Pickup" is present and every old tag is kept |
| `StealthCharacter.FirstPickup` | Source/StealthProject/StealthProjectCharacter.cpp:166-178 | the index of the first overlapping actor tagged "Pickup", none tagged before it; `None` exactly when no overlapping actor is tagged |
| `StealthCharacter.Character.constructor` | Source/StealthProject/StealthProjectCharacter.cpp:21-61 | a new character holds nothing, is not crouching, has expansion factor 1.3 and, when it has a capsule, a capsule 42 by 96 |
| `StealthCharacter.Character.BeginPlay` | Source/StealthProject/StealthProjectCharacter.cpp:63-69 | the current capsule radius is recorded as the initial radius |
| `StealthCharacter.Character.IsHoldingItem` | Source/StealthProject/StealthProjectCharacter.cpp:246-249 | true exactly when the held-item reference is non-null |
| `StealthCharacter.Character.Pickup` | Source/StealthProject/StealthProjectCharacter.cpp:160-180 | holding: drops the item (reference null, detached, tags kept, physics re-enabled if pickable), others untouched; empty hands: takes the actor at `FirstPickup` (physics disabled if pickable), later and other actors untouched, or changes nothing if none is tagged; the holding flag flips exactly when something is dropped or taken; `HoldingConsistent` is preserved |
| `StealthCharacter.Character.PickItem` | Source/StealthProject/StealthProjectCharacter.cpp:182-192 | the reference is set to the actor whatever it is; its physics is disabled only when it is a pickable item, otherwise it is untouched |
| `StealthCharacter.Character.HoldItem` | Source/StealthProject/StealthProjectCharacter.cpp:194-204 | never changes the reference; with nothing held it does nothing; otherwise the actor becomes attached iff the attach succeeds, and the reference stays set on failure; `HoldingConsistent` is preserved |
| `StealthCharacter.Character.DropItem` | Source/StealthProject/StealthProjectCharacter.cpp:206-213 | afterwards the reference is null; a held actor is detached, keeps its tags, and its physics re-enabled when it is pickable; with nothing held, a no-op |
| `StealthCharacter.Character.TriggerCrouch` | Source/StealthProject/StealthProjectCharacter.cpp:215-222 | negates the crouch flag when the movement component exists, otherwise leaves it; one step of `CrouchFlagAfter` |
| `StealthCharacter.CrouchFlagParity` | Source/StealthProject/StealthProjectCharacter.cpp:215-222 | after n presses the flag is negated iff n is odd (and the component exists), so two presses restore it |
| `StealthCharacter.ResizedDimension` | Source/StealthProject/StealthProjectCharacter.cpp:229-230 | a non-negative request sets the dimension; a negative one (the -1 default) leaves it |
| `StealthCharacter.Character.SetCapsuleProperties` | Source/StealthProject/StealthProjectCharacter.cpp:224-232 | each dimension changes only when its argument is non-negative and the capsule exists, and then takes the requested value (engine clamps left out) |
| `StealthCharacter.Character.OnStartCrouch` | Source/StealthProject/StealthProjectCharacter.cpp:240-244 | the radius takes one `StartCrouch` step towards recorded radius times the factor; the model's half-height is untouched (engine clamp left out) |
| `StealthCharacter.Character.OnEndCrouch` | Source/StealthProject/StealthProjectCharacter.cpp:234-238 | the radius takes one `EndCrouch` step back to the recorded radius; the model's half-height is untouched (engine clamp left out) |
| `StealthCharacter.EndCrouchRestoresInitial` | Source/StealthProject/StealthProjectCharacter.cpp:234-244 | after any callback sequence ending in a crouch end, the radius equals the radius recorded at BeginPlay (start-then-end restores it) |
| `StealthCharacter.RadiusStaysRecordedOrExpanded` | Source/StealthProject/StealthProjectCharacter.cpp:234-244 | from the radius recorded at BeginPlay (line 69), crouch callbacks only ever give the recorded or the expanded radius |
| `StealthCharacter.LateAttachTakesCurrentItem` | Source/StealthProject/StealthProjectCharacter.cpp:194-203 | the attach step attaches whatever is held when it runs, without comparing it with the item whose pickup armed it: after pick, drop and a second pick, it attaches the second item and leaves the first detached |

## Left out

- The engine timer that delays HoldItem (StealthProjectCharacter.cpp:191). HoldItem is a separate step any caller may invoke at any time, so the model allows several pending attaches, or one that never fires. The game re-arms one timer handle, `AttachTimerHandle`, on every pickup, and the engine's SetTimer replaces a timer already set on that handle, so at most one attach is pending there; the model does not capture that limit.
- Transforms: `FaceLocation`, the snap-to-socket placement of an attach and the kept world transform of a detach. Only whether an actor is attached to the socket is modelled.
- `Move`, `Look`, input mapping and bindings, and the constructor's movement and camera tuning. These are vector maths and engine configuration.
- Floating point: capsule sizes and the factor 1.3 are exact reals, so float rounding and NaN are not modelled (a NaN request would leave a dimension unchanged in the game's code too).
- Tag comparison: tags are compared as exact strings. The engine compares names without regard to case.
- StealthCharacter.Character.SetCapsuleProperties: the capsule setters are modelled as writing exactly the requested dimension. Both engine setters go through one capsule-size update that keeps the half-height at least the radius: widening the radius raises a smaller half-height to the new radius, and a requested half-height below the current radius is raised to that radius (with radius 42, a request of half-height 10 gives 42, not 10). Neither clamp is modelled; no caller in the game passes a half-height.
- StealthCharacter.Character.constructor: the model lets a character be built without a capsule or a movement component, so that the null checks in TriggerCrouch (StealthProjectCharacter.cpp:218) and SetCapsuleProperties (line 227) can be reached. The game's constructor dereferences both components without a check (lines 24 and 32-43), so such a character would never finish construction there; the 42 by 96 capsule is promised only when the capsule exists.
- StealthCharacter.Character.OnStartCrouch: "the half-height is untouched" holds only for what the game requests. While crouched the engine has already lowered the half-height, so widening the radius to the recorded radius times 1.3 can raise the half-height through the clamp above.
- StealthCharacter.Character.OnEndCrouch: the same clamp is left out, so the model does not say how the engine's half-height relates to the restored radius.
- The engine's own parts of the crouch callbacks (`Super::OnStartCrouch`/`OnEndCrouch`) and the decision of when to call them.
- Uniqueness of the overlap set: nothing in the model needs it, so any sequence of actors is accepted.
- Logging and the empty `Tick` (PickableItem.cpp:56-60).
- The game mode's default pawn lookup and the build rules: configuration only.
- `ResetLocation`: there is no such operation in the code; the `InitialRelativeLocation` field in PickableItem.h is never used.
