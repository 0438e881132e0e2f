/** handle::handle_data: the reference-counted payload of a `handle`. It stores a
    HANDLE and the value that the caller declared to be the invalid sentinel for
    that kind of handle (NULL or INVALID_HANDLE_VALUE), and its destructor closes
    the handle unless it is that sentinel. */
module HandleData {
  import opened Kernel

  /** h_ and invalid_handle_, as passed to handle_data(h, invalid). */
  datatype Fields = Fields(h: Ptr, invalid: Ptr)

  /** The Win32 calls made by ~handle_data(). */
  function DestructorCalls(f: Fields): (calls: seq<Call>)
    ensures |calls| <= 1
    ensures forall c | c in calls :: c == CloseHandle(f.h)
    ensures CloseHandle(f.h) in calls <==> f.h != f.invalid
    ensures CloseHandle(f.invalid) !in calls
  {
    if f.h != f.invalid then [CloseHandle(f.h)] else []
  }

  /** ~handle_data() */
  method Destruct(f: Fields, k: Kernel)
    modifies k`calls
    ensures k.calls == old(k.calls) + DestructorCalls(f)
  {
    if f.h != f.invalid {
      k.CloseHandle(f.h);
    }
  }
}
