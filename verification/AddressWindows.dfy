/**
  The generic address space: the windows of shared and local memory below the global heap, in
  gpgpu-sim/cuda-sim/cuda-sim.cc, with the constants of gpgpu-sim/abstract_hardware_model.h.
 */
module AddressWindows {
  import opened Arithmetic

  const GLOBAL_HEAP_START: nat := 0x8000_0000
  const SHARED_SIZE: nat := 64 * 1024
  const LOCAL_SIZE: nat := 8 * 1024
  const CORES: nat := 64
  const THREADS: nat := 2048
  const LOCAL_PER_CORE: nat := THREADS * LOCAL_SIZE
  const SHARED_START: nat := GLOBAL_HEAP_START - CORES * SHARED_SIZE
  const LOCAL_START: nat := SHARED_START - CORES * LOCAL_PER_CORE
  const STATIC_LIMIT: nat := GLOBAL_HEAP_START - (CORES * LOCAL_PER_CORE + CORES * SHARED_SIZE)

  datatype Space = Global | Shared | Local

  function SharedToGeneric(smid: nat, a: nat): nat {
    SHARED_START + smid * SHARED_SIZE + a
  }

  function LocalToGeneric(smid: nat, hwtid: nat, a: nat): nat {
    LOCAL_START + LOCAL_PER_CORE * smid + LOCAL_SIZE * hwtid + a
  }

  predicate IsShared(smid: nat, g: nat) {
    SHARED_START + smid * SHARED_SIZE <= g < SHARED_START + (smid + 1) * SHARED_SIZE
  }

  predicate IsLocal(smid: nat, hwtid: nat, g: nat) {
    && LOCAL_START + LOCAL_PER_CORE * smid + LOCAL_SIZE * hwtid <= g
    && g < LOCAL_START + LOCAL_PER_CORE * smid + LOCAL_SIZE * (hwtid + 1)
  }

  function GenericToShared(smid: nat, g: nat): nat
    requires IsShared(smid, g)
  {
    g - (SHARED_START + smid * SHARED_SIZE)
  }

  function GenericToLocal(smid: nat, hwtid: nat, g: nat): nat
    requires IsLocal(smid, hwtid, g)
  {
    g - (LOCAL_START + LOCAL_PER_CORE * smid + LOCAL_SIZE * hwtid)
  }

  predicate IsGlobal(g: nat) {
    g >= GLOBAL_HEAP_START || g < STATIC_LIMIT
  }

  function WhichSpace(g: nat): Space {
    if g >= GLOBAL_HEAP_START || g < STATIC_LIMIT then Global else if g >= SHARED_START then Shared else Local
  }

  // A window and its place in the address space.
  datatype Owner = SharedOf(smid: nat) | LocalOf(smid: nat, hwtid: nat)

  predicate OwnerOk(o: Owner) {
    o.smid < CORES && (o.LocalOf? ==> o.hwtid < THREADS)
  }

  predicate In(o: Owner, g: nat) {
    match o
    case SharedOf(smid) => IsShared(smid, g)
    case LocalOf(smid, hwtid) => IsLocal(smid, hwtid, g)
  }

  function OwnerOf(g: nat): Owner
    requires !IsGlobal(g)
  {
    if g >= SHARED_START then SharedOf((g - SHARED_START) / SHARED_SIZE)
    else LocalOf((g - LOCAL_START) / LOCAL_PER_CORE, (g - LOCAL_START) % LOCAL_PER_CORE / LOCAL_SIZE)
  }

  lemma OnlyOwner(g: nat, o: Owner)
    requires OwnerOk(o) && In(o, g)
    ensures !IsGlobal(g) && o == OwnerOf(g)
  {
    match o
    case SharedOf(smid) => Quotient(SHARED_SIZE, smid, g - SHARED_START - smid * SHARED_SIZE);
    case LocalOf(smid, hwtid) =>
      var low := g - LOCAL_START - LOCAL_PER_CORE * smid;
      Quotient(LOCAL_PER_CORE, smid, low);
      Quotient(LOCAL_SIZE, hwtid, low - LOCAL_SIZE * hwtid);
  }

  lemma OwnerOwns(g: nat)
    requires !IsGlobal(g)
    ensures OwnerOk(OwnerOf(g)) && In(OwnerOf(g), g)
  {
  }

  /** The windows tile the space between static and heap allocations: every address there lies in exactly one window,
      its owner's, and no other address lies in any. */
  lemma WindowsTile(g: nat, o: Owner)
    requires OwnerOk(o)
    ensures IsGlobal(g) ==> !In(o, g)
    ensures !IsGlobal(g) ==> OwnerOk(OwnerOf(g)) && (In(o, g) <==> o == OwnerOf(g))
  {
    if In(o, g) { OnlyOwner(g, o); }
    if !IsGlobal(g) { OwnerOwns(g); }
  }

  /** From static memory up to the heap: the local windows of 8 KiB core by core, the 2048 threads of a core one after
      the other, and then the shared windows of 64 KiB, one for each of 64 cores. */
  lemma WindowsInOrder(smid: nat, hwtid: nat)
    ensures LocalToGeneric(0, 0, 0) == STATIC_LIMIT
    ensures LocalToGeneric(smid, hwtid, 8192) == LocalToGeneric(smid, hwtid + 1, 0)
    ensures LocalToGeneric(smid, 2048, 0) == LocalToGeneric(smid + 1, 0, 0)
    ensures LocalToGeneric(64, 0, 0) == SharedToGeneric(0, 0)
    ensures SharedToGeneric(smid, 65536) == SharedToGeneric(smid + 1, 0)
    ensures SharedToGeneric(64, 0) == 0x8000_0000
  {
  }

  /** `whichspace` agrees with the windows. */
  lemma SpaceIsOwners(g: nat)
    ensures WhichSpace(g) == Global <==> IsGlobal(g)
    ensures !IsGlobal(g) ==> In(OwnerOf(g), g) && (WhichSpace(g) == Shared <==> OwnerOf(g).SharedOf?)
  {
  }

  /** Conversions to the generic space land in the owner's window exactly for addresses within its size, and the
      conversions back undo them and are undone by them. */
  lemma ConversionsRoundTrip(smid: nat, hwtid: nat, a: nat, g: nat)
    ensures a < SHARED_SIZE <==> IsShared(smid, SharedToGeneric(smid, a))
    ensures a < LOCAL_SIZE <==> IsLocal(smid, hwtid, LocalToGeneric(smid, hwtid, a))
    ensures a < SHARED_SIZE ==> GenericToShared(smid, SharedToGeneric(smid, a)) == a
    ensures a < LOCAL_SIZE ==> GenericToLocal(smid, hwtid, LocalToGeneric(smid, hwtid, a)) == a
    ensures IsShared(smid, g) ==>
              && GenericToShared(smid, g) < SHARED_SIZE
              && SharedToGeneric(smid, GenericToShared(smid, g)) == g
    ensures IsLocal(smid, hwtid, g) ==>
              && GenericToLocal(smid, hwtid, g) < LOCAL_SIZE
              && LocalToGeneric(smid, hwtid, GenericToLocal(smid, hwtid, g)) == g
  {
  }
}
