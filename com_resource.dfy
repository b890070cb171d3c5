/**
 * `ComResource<T>` (src/common/com_resource.h): a move-only handle that owns one
 * reference to a COM object and gives it back through `Release` exactly once.
 * The COM object itself is abstract: all the model keeps of it is a ghost count
 * of the `Release` calls made on it.
 */
module ComResources {

  /** A COM interface pointer's target; `releases` counts the `Release` calls it has received. */
  class ComObject {
    ghost var releases: nat

    constructor ()
      ensures releases == 0
    {
      releases := 0;
    }

    /** `IUnknown::Release`, seen only through its count. */
    method Release()
      modifies this
      ensures releases == old(releases) + 1
    {
      releases := releases + 1;
    }
  }

  class ComResource {
    var ptr: ComObject?

    /** The handle's reference has not been given back yet. */
    ghost predicate Owns()
      reads this, ptr
    {
      ptr != null ==> ptr.releases == 0
    }

    /** com_resource.h:26: a new handle is null. */
    constructor ()
      ensures ptr == null && !IsValid() && Owns()
    {
      ptr := null;
    }

    /**
     * com_resource.h:44-46: the new handle takes the source's pointer and the source
     * becomes null; no `Release` is called, so the moved reference is still unreleased.
     */
    constructor Move(other: ComResource)
      requires other.Owns()
      modifies other
      ensures ptr == old(other.ptr) && other.ptr == null
      ensures Owns() && other.Owns()
    {
      ptr := other.ptr;
      new;
      other.ptr := null;
    }

    /**
     * com_resource.h:63-68: a held pointer is released once and the handle nulled;
     * on a null handle nothing happens, so a second call is harmless.
     */
    method Release()
      requires Owns()
      modifies this, ptr
      ensures ptr == null && Owns()
      ensures old(ptr) != null ==> old(ptr).releases == 1
    {
      if ptr != null {
        ptr.Release();
        ptr := null;
      }
    }

    /** com_resource.h:31-33: the destructor is `release`. */
    method Destroy()
      requires Owns()
      modifies this, ptr
      ensures ptr == null
      ensures old(ptr) != null ==> old(ptr).releases == 1
    {
      Release();
    }

    /**
     * com_resource.h:51-58. From another handle: release the old pointer first, then
     * take the source's pointer and null the source. Assigning a handle to itself
     * changes nothing. Two handles never share a pointer, because copying is deleted
     * (lines 38-39).
     */
    method MoveAssign(other: ComResource)
      requires Owns() && other.Owns()
      requires other != this && ptr != null ==> ptr != other.ptr
      modifies this, other, ptr
      ensures other == this ==> ptr == old(ptr) && Owns()
      ensures other != this ==> ptr == old(other.ptr) && other.ptr == null
      ensures other != this && old(ptr) != null ==> old(ptr).releases == 1
      ensures Owns() && other.Owns()
    {
      if this != other {
        Release();
        ptr := other.ptr;
        other.ptr := null;
      }
    }

    /**
     * com_resource.h:86-89 followed by the creating call that writes `created` through
     * the returned address (a newly created object): the old pointer is released before
     * the slot is overwritten.
     */
    method ReleaseAndGetAddressOf(created: ComObject?)
      requires Owns()
      requires created != null ==> created.releases == 0 && created != ptr
      modifies this, ptr
      ensures ptr == created && Owns()
      ensures old(ptr) != null ==> old(ptr).releases == 1
    {
      Release();
      ptr := created;
    }

    /**
     * com_resource.h:80 followed by a write of `created` through the address: the
     * slot is overwritten without any release.
     */
    method GetAddressOf(created: ComObject?)
      modifies this
      ensures ptr == created
    {
      ptr := created;
    }

    /** com_resource.h:74 and 95: the raw pointer. */
    function Get(): (p: ComObject?)
      reads this
      ensures p != null <==> IsValid()
    {
      ptr
    }

    /** com_resource.h:101: `operator bool`. */
    predicate IsValid()
      reads this
    {
      ptr != null
    }
  }

  /**
   * Releasing twice, as an explicit `release` followed by the destructor does, gives
   * the object back exactly once.
   */
  method ReleaseThenDestroy(h: ComResource)
    requires h.Owns()
    modifies h, h.ptr
    ensures h.ptr == null
    ensures old(h.ptr) != null ==> old(h.ptr).releases == 1
  {
    h.Release();
    h.Destroy();
  }

  /**
   * A reference moved into a new handle is not released when the emptied source is
   * destroyed, only when its new owner is.
   */
  method MoveThenDestroy(source: ComResource) returns (target: ComResource)
    requires source.Owns()
    modifies source, source.ptr
    ensures source.ptr == null && target.ptr == null
    ensures old(source.ptr) != null ==> old(source.ptr).releases == 1
  {
    ghost var held := source.ptr;
    target := new ComResource.Move(source);
    source.Destroy();
    assert held != null ==> held.releases == 0;
    target.Destroy();
  }
}
