/** The pickable item actor: an engine actor carrying a list of name tags and,
    when it is an APickableItem, a possibly absent physics mesh whose
    simulate flag, collision mode and Pawn-channel response the item switches
    between a "free" and a "held" configuration. */
module PickableItem {

  datatype Option<T> = None | Some(value: T)

  /** The engine's collision-enabled modes of a primitive component. */
  datatype CollisionEnabled =
    | NoCollision
    | QueryOnly
    | PhysicsOnly
    | QueryAndPhysics
    | ProbeOnly
    | QueryAndProbe

  /** The engine's per-channel collision responses. */
  datatype CollisionResponse = Ignore | Overlap | Block

  /** The three pieces of mesh state the item writes. */
  datatype MeshPhysics = MeshPhysics(simulate: bool, collision: CollisionEnabled, pawnResponse: CollisionResponse)

  /** The tag by which the character recognises something it can pick up. */
  const PickupTag: string := "Pickup"

  /** Mesh state after EnablePhysics; `None` stands for an absent mesh. */
  function EnabledPhysics(m: Option<MeshPhysics>): (r: Option<MeshPhysics>)
    ensures r.Some? <==> m.Some?
    ensures r.Some? ==> r.value.simulate && r.value.collision == PhysicsOnly && r.value.pawnResponse == Overlap
  {
    match m
    case None => None
    case Some(_) => Some(MeshPhysics(true, PhysicsOnly, Overlap))
  }

  /** Mesh state after DisablePhysics: the Pawn-channel response is kept. */
  function DisabledPhysics(m: Option<MeshPhysics>): (r: Option<MeshPhysics>)
    ensures r.Some? <==> m.Some?
    ensures r.Some? ==> !r.value.simulate && r.value.collision == NoCollision
    ensures r.Some? ==> r.value.pawnResponse == m.value.pawnResponse
  {
    match m
    case None => None
    case Some(p) => Some(p.(simulate := false, collision := NoCollision))
  }

  /** A call of one of the two physics toggles. */
  datatype PhysicsCall = Enable | Disable

  function ApplyCall(m: Option<MeshPhysics>, c: PhysicsCall): (r: Option<MeshPhysics>)
  {
    match c
    case Enable => EnabledPhysics(m)
    case Disable => DisabledPhysics(m)
  }

  /** The mesh state after the toggle calls `cs`, made in order. */
  function ApplyCalls(m: Option<MeshPhysics>, cs: seq<PhysicsCall>): (r: Option<MeshPhysics>)
    decreases |cs|
  {
    if cs == [] then m else ApplyCalls(ApplyCall(m, cs[0]), cs[1..])
  }

  /** `n` calls of the same toggle. */
  function Repeat(c: PhysicsCall, n: nat): (cs: seq<PhysicsCall>)
    ensures |cs| == n && forall i :: 0 <= i < n ==> cs[i] == c
  {
    seq(n, _ => c)
  }

  /** Both toggles are idempotent: any positive number of calls of one toggle
      leaves the mesh exactly as a single call does. */
  lemma {:induction false} RepeatedCallActsOnce(m: Option<MeshPhysics>, c: PhysicsCall, n: nat)
    ensures ApplyCalls(m, Repeat(c, n + 1)) == ApplyCall(m, c)
    decreases n
  {
    if n == 0 {
      assert Repeat(c, 1)[1..] == [];
    } else {
      assert Repeat(c, n + 1)[1..] == Repeat(c, n);
      RepeatedCallActsOnce(ApplyCall(m, c), c, n - 1);
      assert ApplyCall(ApplyCall(m, c), c) == ApplyCall(m, c);
    }
  }

  /** Without a mesh every toggle sequence is a no-op, and with a mesh the
      mesh stays; the Pawn-channel response is `Overlap` once any enable has
      been made and is otherwise the original one. */
  lemma {:induction false} PawnResponseAfterCalls(m: Option<MeshPhysics>, cs: seq<PhysicsCall>)
    ensures m.None? ==> ApplyCalls(m, cs) == None
    ensures m.Some? ==> ApplyCalls(m, cs).Some?
    ensures m.Some? ==> ApplyCalls(m, cs).value.pawnResponse == (if Enable in cs then Overlap else m.value.pawnResponse)
    decreases |cs|
  {
    if cs != [] {
      PawnResponseAfterCalls(ApplyCall(m, cs[0]), cs[1..]);
      assert Enable in cs <==> cs[0] == Enable || Enable in cs[1..] by {
        assert cs == [cs[0]] + cs[1..];
      }
    }
  }

  /** The simulate flag and the collision mode after a non-empty sequence of
      toggle calls depend only on the last call made. */
  lemma {:induction false} LastCallDecides(m: Option<MeshPhysics>, cs: seq<PhysicsCall>)
    requires m.Some? && cs != []
    ensures ApplyCalls(m, cs).Some?
    ensures ApplyCalls(m, cs).value.simulate == (cs[|cs| - 1] == Enable)
    ensures ApplyCalls(m, cs).value.collision == (if cs[|cs| - 1] == Enable then PhysicsOnly else NoCollision)
    decreases |cs|
  {
    if |cs| > 1 {
      LastCallDecides(ApplyCall(m, cs[0]), cs[1..]);
      assert cs[1..][|cs[1..]| - 1] == cs[|cs| - 1];
    }
  }

  /** `tags` with `t` appended unless it is already there (the engine's
      TArray::AddUnique). */
  function AddUnique(tags: seq<string>, t: string): (r: seq<string>)
    ensures t in r
    ensures |tags| <= |r| <= |tags| + 1 && r[..|tags|] == tags
    ensures t in tags ==> r == tags
    ensures multiset(r)[t] == if t in tags then multiset(tags)[t] else 1
  {
    if t in tags then tags else tags + [t]
  }

  /** An engine actor. `isPickable` says whether the actor is an
      APickableItem (what a successful Cast<APickableItem> tells); only then
      are `hasMesh` and the three physics fields meaningful. */
  class Actor {
    const isPickable: bool
    /** Whether the item's Mesh component pointer is set. */
    const hasMesh: bool
    var tags: seq<string>
    var simulate: bool
    var collision: CollisionEnabled
    var pawnResponse: CollisionResponse
    /** Whether the actor is attached to the character's "WeaponSocket". */
    var attached: bool

    constructor (isPickable: bool, hasMesh: bool, tags: seq<string>, initial: MeshPhysics)
      ensures this.isPickable == isPickable && this.hasMesh == hasMesh && this.tags == tags
      ensures hasMesh ==> Physics() == Some(initial)
      ensures !attached
    {
      this.isPickable := isPickable;
      this.hasMesh := hasMesh;
      this.tags := tags;
      simulate := initial.simulate;
      collision := initial.collision;
      pawnResponse := initial.pawnResponse;
      attached := false;
    }

    /** The mesh state, `None` when the mesh is absent. */
    function Physics(): (r: Option<MeshPhysics>)
      reads this
      ensures r.Some? <==> hasMesh
    {
      if hasMesh then Some(MeshPhysics(simulate, collision, pawnResponse)) else None
    }

    /** AActor::ActorHasTag. */
    predicate HasTag(t: string)
      reads this
    {
      t in tags
    }

    method DisablePhysics()
      requires isPickable
      modifies this`simulate, this`collision
      ensures Physics() == DisabledPhysics(old(Physics()))
      ensures pawnResponse == old(pawnResponse)
      ensures !hasMesh ==> unchanged(this)
    {
      if hasMesh {
        simulate := false;
        collision := NoCollision;
      }
    }

    method EnablePhysics()
      requires isPickable
      modifies this`simulate, this`collision, this`pawnResponse
      ensures Physics() == EnabledPhysics(old(Physics()))
      ensures !hasMesh ==> unchanged(this)
    {
      if hasMesh {
        simulate := true;
        collision := PhysicsOnly;
        pawnResponse := Overlap;
      }
    }

    /** The item's BeginPlay: enable physics, then add the "Pickup" tag
        unless it is already there. */
    method BeginPlay()
      requires isPickable
      modifies this`simulate, this`collision, this`pawnResponse, this`tags
      ensures Physics() == EnabledPhysics(old(Physics()))
      ensures tags == AddUnique(old(tags), PickupTag)
      ensures HasTag(PickupTag) && forall t :: t in old(tags) ==> t in tags
    {
      EnablePhysics();
      tags := AddUnique(tags, PickupTag);
    }
  }
}
