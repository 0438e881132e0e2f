/** `handle`: a reference-counted HANDLE holder. Its only member is a
    ref<handle_data>; the handle_data object owns the OS handle and closes it
    in its destructor, which runs when the last ref to it is destroyed. */
module Handles {
  import opened Kernel
  import opened Objects
  import HandleData

  class Handle {
    /** The heap in which data_ and its handle_data live. */
    const heap: Heap
    /** data_: the ref<handle_data> member. */
    const data: RefId

    /** data_ points at a handle_data that has not been deleted. */
    ghost predicate Live()
      reads this, heap
    {
      && heap.Valid()
      && data in heap.refs
      && heap.refs[data].Some?
      && heap.refs[data].value in heap.counts
      && heap.payloads[heap.refs[data].value].HandleObject?
    }

    /** handle(h, invalid): data_(new handle_data(h, invalid)), count 1, adopted. */
    constructor (heap: Heap, h: Ptr, invalid: Ptr)
      requires heap.Valid()
      modifies heap
      ensures this.heap == heap && heap.Valid()
      ensures data !in old(heap.refs) && data in heap.refs && heap.refs[data].Some?
      ensures var o := heap.refs[data].value;
              && o !in old(heap.payloads)
              && heap.refs == old(heap.refs)[data := Some(o)]
              && heap.counts == old(heap.counts)[o := 1]
              && heap.payloads == old(heap.payloads)[o := HandleObject(HandleData.Fields(h, invalid))]
      ensures heap.destroyed == old(heap.destroyed)
      ensures old(heap.Owned()) ==> heap.Owned()
    {
      ghost var counts0, refs0 := heap.counts, heap.refs;
      var o := heap.NewObject(HandleObject(HandleData.Fields(h, invalid)));
      var r := heap.Adopt(Some(o));
      this.heap := heap;
      data := r;
      if Balanced(counts0, refs0) {
        AdoptFreshKeepsBalance(counts0, refs0, o, r);
      }
    }

    /** handle(handle&& src) : data_(std::move(src.data_)), with data_ built by the
        converting copy of ref: both handles share the payload, whose count goes up by one. */
    constructor Move(src: Handle)
      requires src.heap.Valid() && src.data in src.heap.refs
      requires src.heap.refs[src.data].Some? ==> src.heap.refs[src.data].value in src.heap.counts
      modifies src.heap
      ensures heap == src.heap && heap.Valid()
      ensures data !in old(src.heap.refs)
      ensures heap.refs == old(src.heap.refs)[data := old(src.heap.refs[src.data])]
      ensures heap.counts == AcquireTarget(old(src.heap.counts), old(src.heap.refs[src.data]))
      ensures heap.payloads == old(src.heap.payloads) && heap.destroyed == old(src.heap.destroyed)
      ensures old(src.heap.Owned())
              && (old(src.heap.refs[src.data]).Some? ==> old(src.heap.counts[src.heap.refs[src.data].value]) < MaxCount)
              ==> heap.Owned()
    {
      var r := src.heap.Copy(src.data);
      heap := src.heap;
      data := r;
    }

    /** handle(handle&& src) as C++ resolves it: the implicitly declared copy
        constructor of ref copies ptr_ and leaves the count alone. */
    constructor MoveAsWritten(src: Handle)
      requires src.heap.Valid() && src.data in src.heap.refs
      modifies src.heap
      ensures heap == src.heap && heap.Valid()
      ensures data !in old(src.heap.refs)
      ensures heap.refs == old(src.heap.refs)[data := old(src.heap.refs[src.data])]
      ensures heap.counts == old(src.heap.counts)
      ensures heap.payloads == old(src.heap.payloads) && heap.destroyed == old(src.heap.destroyed)
    {
      var r := src.heap.CopyMemberwise(src.data);
      heap := src.heap;
      data := r;
    }

    /** operator HANDLE(): data_->handle(), the h_ stored at construction. */
    method ToHandle() returns (h: Ptr)
      requires Live()
      ensures h == heap.payloads[heap.refs[data].value].fields.h
    {
      var p := heap.Arrow(data);
      h := heap.payloads[p.value].fields.h;
    }

    /** operator=(handle&& src): data_ = std::move(src.data_), through the template
        operator= of ref: the old payload is decref'd, then the source's is incref'd. */
    method MoveAssign(src: Handle, k: Kernel)
      requires heap.Valid() && src.heap == heap && data in heap.refs && src.data in heap.refs
      requires heap.refs[data].Some? ==> heap.refs[data].value in heap.counts
      requires heap.refs[src.data].Some? ==> heap.refs[src.data].value in ReleaseTarget(heap.counts, heap.refs[data])
      modifies heap, k`calls
      ensures heap.Valid()
      ensures heap.refs == old(heap.refs)[data := old(heap.refs[src.data])]
      ensures heap.counts == AcquireTarget(ReleaseTarget(old(heap.counts), old(heap.refs[data])), old(heap.refs[src.data]))
      ensures heap.payloads == old(heap.payloads)
      ensures old(heap.refs[data]).Some? && old(heap.refs[data]).value !in heap.counts ==>
                && heap.destroyed == old(heap.destroyed) + [old(heap.refs[data]).value]
                && k.calls == old(k.calls) + DestructorCalls(heap.payloads[old(heap.refs[data]).value])
      ensures old(heap.refs[data]).None? || old(heap.refs[data]).value in heap.counts ==>
                heap.destroyed == old(heap.destroyed) && k.calls == old(k.calls)
      ensures (old(heap.Owned()) && data != src.data
               && (old(heap.refs[src.data]).Some? ==> old(heap.counts[heap.refs[src.data].value]) < MaxCount))
              ==> heap.Owned()
    {
      heap.Assign(data, src.data, k);
    }

    /** operator=(handle&& src) as C++ resolves it: the implicitly declared copy
        assignment of ref overwrites ptr_ and changes no count. */
    method MoveAssignAsWritten(src: Handle)
      requires heap.Valid() && src.heap == heap && data in heap.refs && src.data in heap.refs
      modifies heap
      ensures heap.Valid()
      ensures heap.refs == old(heap.refs)[data := old(heap.refs[src.data])]
      ensures heap.counts == old(heap.counts)
      ensures heap.payloads == old(heap.payloads) && heap.destroyed == old(heap.destroyed)
    {
      heap.AssignMemberwise(data, src.data);
    }

    /** The implicit ~handle(): destroys data_, which decrefs the payload. */
    method Dispose(k: Kernel)
      requires heap.Valid() && data in heap.refs
      requires heap.refs[data].Some? ==> heap.refs[data].value in heap.counts
      modifies heap, k`calls
      ensures heap.Valid()
      ensures heap.refs == old(heap.refs) - {data}
      ensures heap.counts == ReleaseTarget(old(heap.counts), old(heap.refs[data]))
      ensures heap.payloads == old(heap.payloads)
      ensures old(heap.refs[data]).Some? && old(heap.refs[data]).value !in heap.counts ==>
                && heap.destroyed == old(heap.destroyed) + [old(heap.refs[data]).value]
                && k.calls == old(k.calls) + DestructorCalls(heap.payloads[old(heap.refs[data]).value])
      ensures old(heap.refs[data]).None? || old(heap.refs[data]).value in heap.counts ==>
                heap.destroyed == old(heap.destroyed) && k.calls == old(k.calls)
      ensures old(heap.Owned()) ==> heap.Owned()
    {
      heap.Drop(data, k);
    }
  }

  /** With the corrected move (Handle.Move): a handle opened on h, moved into a
      second handle and read back through it, then both destroyed: the value read
      is h, and h is closed exactly once, after the last owner is gone, unless it
      is the sentinel. `midCalls` and `midCount` are the call log and the payload's
      count once the first handle is destroyed: nothing has been closed yet, and
      the second handle is the payload's one remaining owner. */
  method HandleLifetime(heap: Heap, k: Kernel, h: Ptr, invalid: Ptr)
    returns (observed: Ptr, ghost midCalls: seq<Call>, ghost midCount: Dword)
    requires heap.Owned()
    modifies heap, k`calls
    ensures heap.Owned()
    ensures observed == h
    ensures midCalls == old(k.calls) && midCount == 1
    ensures k.calls == old(k.calls) + (if h != invalid then [CloseHandle(h)] else [])
  {
    var a := new Handle(heap, h, invalid);
    ghost var o := heap.refs[a.data].value;
    var b := new Handle.Move(a);
    assert heap.counts[o] == 2 && heap.refs[b.data] == Some(o);
    observed := b.ToHandle();
    a.Dispose(k);
    midCalls, midCount := k.calls, heap.counts[o];
    b.Dispose(k);
  }

  /** With the move as C++ resolves it (Handle.MoveAsWritten): the moved-to handle
      reads h, but once the moved-from handle is destroyed its payload is deleted
      and h is closed, while the moved-to handle still points at the deleted payload. */
  method HandleLifetimeAsWritten(heap: Heap, k: Kernel, h: Ptr, invalid: Ptr)
    returns (b: Handle, o: ObjId, observed: Ptr)
    requires heap.Owned()
    modifies heap, k`calls
    ensures observed == h
    ensures b.heap == heap && b.data in heap.refs
    ensures heap.refs[b.data] == Some(o)
    ensures o !in heap.counts && o in heap.destroyed
    ensures !NoDangling(heap.counts, heap.refs)
    ensures k.calls == old(k.calls) + (if h != invalid then [CloseHandle(h)] else [])
  {
    var a := new Handle(heap, h, invalid);
    o := heap.refs[a.data].value;
    b := new Handle.MoveAsWritten(a);
    assert heap.counts[o] == 1 && heap.refs[b.data] == Some(o);
    observed := b.ToHandle();
    a.Dispose(k);
    assert b.data in heap.refs;
  }
}
