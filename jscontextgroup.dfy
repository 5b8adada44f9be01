/** JSContextGroup (src/JSContextGroup.cpp): a facade around an engine
    context group handle that releases it on destruction only when it is
    `managed`, that is, when it took a reference of its own. */
module ContextGroups {
  import opened Common
  import opened Lifetime
  import Errors
  import Contexts

  class JSContextGroup {
    /** js_context_group_ref__. */
    var ref: Handle
    /** managed__. */
    var managed: bool

    /** JSContextGroup() (src/JSContextGroup.cpp:18-22): JSContextGroupCreate
        gives a new group holding one reference. The constructor does not set
        managed__; its in-class initializer, in a header that is not part of
        this model, is the parameter `managedDefault`. */
    constructor (groups: Pool<()>, managedDefault: bool)
      requires groups.Valid()
      modifies groups
      ensures groups.Valid()
      ensures ref != Null && ref !in old(groups.contents)
      ensures groups.contents == old(groups.contents)[ref := ()]
      ensures managed == managedDefault
      ensures Moves(old(groups.counts), groups.counts, EventSteps(CopyAndSwap, Construct(ref)))
    {
      var h := groups.Create(());
      ref := h;
      managed := managedDefault;
      new;
      Retained(old(groups.counts), groups.counts, ref);
    }

    /** JSContextGroup(JSContextGroupRef) (src/JSContextGroup.cpp:34-43):
        asserts the handle is non-null, retains it once and becomes
        managed. */
    constructor Wrap(groups: Pool<()>, groupRef: Handle)
      requires groupRef != Null
      requires groups.Valid() && groupRef in groups.contents
      modifies groups
      ensures groups.Valid() && groups.contents == old(groups.contents)
      ensures ref == groupRef && managed
      ensures Moves(old(groups.counts), groups.counts, EventSteps(CopyAndSwap, Construct(groupRef)))
    {
      ref := groupRef;
      managed := true;
      new;
      groups.Retain(ref);
      Retained(old(groups.counts), groups.counts, ref);
    }

    /** The copy and move constructors (src/JSContextGroup.cpp:55-73): the
        same handle, retained once, and managed whatever `rhs` is. */
    constructor Copy(groups: Pool<()>, rhs: JSContextGroup)
      requires groups.Valid() && rhs.ref in groups.contents
      modifies groups
      ensures groups.Valid() && groups.contents == old(groups.contents)
      ensures ref == rhs.ref && managed
      ensures Moves(old(groups.counts), groups.counts, EventSteps(CopyAndSwap, CopyOf(rhs.ref)))
    {
      ref := rhs.ref;
      managed := true;
      new;
      groups.Retain(ref);
      Retained(old(groups.counts), groups.counts, ref);
    }

    /** The destructor (src/JSContextGroup.cpp:45-53): one release if
        managed, none otherwise. */
    method Destroy(groups: Pool<()>)
      requires groups.Valid() && ref in groups.contents
      modifies groups
      ensures groups.Valid() && groups.contents == old(groups.contents)
      ensures managed ==> Moves(old(groups.counts), groups.counts, EventSteps(CopyAndSwap, Lifetime.Destroy(ref)))
      ensures !managed ==> groups.counts == old(groups.counts)
    {
      if managed {
        groups.Release(ref);
        Released(old(groups.counts), groups.counts, ref);
      }
    }

    /** swap (src/JSContextGroup.cpp:82-90): only the handles change places;
        each side keeps its own managed flag. */
    method Swap(other: JSContextGroup)
      modifies this, other
      ensures ref == old(other.ref) && other.ref == old(ref)
      ensures managed == old(managed) && other.managed == old(other.managed)
    {
      ref, other.ref := other.ref, ref;
    }

    /** operator= (src/JSContextGroup.cpp:75-80): the by-value parameter is a
        managed copy of `rhs` (one retain of the incoming handle); swapping
        hands the incoming handle to this group and the outgoing one to the
        parameter, whose destructor releases it. The receiver's managed flag
        stays as it was. */
    method Assign(groups: Pool<()>, rhs: JSContextGroup)
      requires groups.Valid() && ref in groups.contents && rhs.ref in groups.contents
      modifies this, groups
      ensures groups.Valid() && groups.contents == old(groups.contents)
      ensures ref == old(rhs.ref) && managed == old(managed)
      ensures Moves(old(groups.counts), groups.counts, AssignSteps(CopyAndSwap, old(ref), old(rhs.ref)))
    {
      var c0 := groups.counts;
      var parameter := new JSContextGroup.Copy(groups, rhs);
      var c1 := groups.counts;
      Swap(parameter);
      parameter.Destroy(groups);
      MovesThen(c0, c1, groups.counts, [Acquire(old(rhs.ref))], [Drop(old(ref))]);
    }

    /** CreateContext() and CreateContext(global_object_class)
        (src/JSContextGroup.cpp:24-32): the native stack is cleared before
        the engine makes the context `contextRef` in this group. */
    method CreateContext(stack: Errors.NativeStack, contextRef: Handle) returns (context: Contexts.JSContext)
      modifies stack
      ensures stack.entries == []
      ensures fresh(context) && context.ref == contextRef
    {
      stack.Clear();
      context := new Contexts.JSContext.InGroup(contextRef);
    }
  }
}
