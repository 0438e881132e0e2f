# WinTL core, modelled in Dafny

WinTL is a header-only C++ wrapper around a few Win32 facilities. This project
models and proves three pieces of its own logic.

- The Win32 calls the core depends on are abstract events appended to a log (`Kernel.Kernel.calls`): `VirtualAlloc`, `VirtualFree`,
  `LocalAlloc`, `LocalFree`, `InitializeSecurityDescriptor` and `CloseHandle`.
- The kernel model also keeps the live `VirtualAlloc` regions and the live
  `LocalAlloc` blocks. Releasing one that is not live cannot be expressed.
- Every answer the OS gives is a parameter of the model: whether an allocation
  succeeds, what `GetLastError` returns, and whether a call fails.
- `GetLastError` and `StartServiceCtrlDispatcherW` are not logged. The
  dispatcher outputs the table it hands to `StartServiceCtrlDispatcherW`, and
  that call's success is a parameter.

The three pieces:

- **Service entry-point stub and dispatch table** (`service.dfy`, module `Services`).
  - A `service` object copies a 36-byte x86-64 template into an executable
    buffer (an `array<Byte>` updated in place).
  - It stores its own address at offset 11 and the address of its
    `service_boot` member at offset 21, each as one little-endian 8-byte store.
  - The model proves exactly which bytes change and that each slot decodes
    back to the stored address.
  - `service_control_dispatcher` builds the `SERVICE_TABLE_ENTRYW` table in a
    loop. It returns early on an empty range. Otherwise it appends the all-zero
    terminator and hands the table to the OS, and an OS failure becomes an error.
- **Intrusive reference counting** (`object.dfy`, module `Objects`).
  - `refcounting` / `ref<T>` are modelled by a `Heap` class.
  - The heap keeps the counter of every live object (a 32-bit `unsigned long`
    on Windows, wrapping modulo 2^32) and the pointer held by every `ref`.
  - A ghost invariant `Balanced` says each live object's count equals the
    number of refs holding it, and no ref dangles.
  - Each operation of the written `ref<T>` code is proved to keep `Balanced`:
    destruction always, the converting copy and the assignment between distinct
    refs while the new target's count stays below ULONG_MAX, and adoption of a null `T*` or of a
    freshly created object with count 1.
  - An object is deleted exactly when its count reaches zero.
  - The implicitly declared member-wise copy and assignment of `ref`, which the
    handle's moves reach, break `Balanced`. See "## Findings".
- **Owned OS resources.**
  - `handle.dfy` and `handle_data.dfy` (modules `Handles`, `HandleData`): a
    reference-counted HANDLE. Its payload closes the handle unless it equals
    the caller's invalid sentinel.
  - `security.dfy` (module `Security`): the move-only `security_descriptor`
    owner of a `LocalAlloc` block, and `security_attributes`.
  - `LocalFree` requires a live block, and `VirtualFree` a live region, so
    "freed at most once" is enforced by every verified caller.
  - A ghost invariant `SoleOwners` says no two descriptors hold the same
    block. Creation, move, move-assignment and destruction are proved to keep it.

`kernel.dfy` (module `Kernel`) holds the shared types and the OS model:
`Dword`, `Ptr`, `Result`, the `Call` log, and the sets of live `VirtualAlloc`
regions and live `LocalAlloc` blocks.

Constructors that can throw (`service`, `security_descriptor()`) are static
`Create` methods returning `Result`. `std::system_error(GetLastError())`
becomes `Err(SystemError(code))`.

## Model

| member | source | states |
|---|---|---|
| Services.TrunkLayout | include/win32/service.hpp:38-47 | the template is 36 bytes; both 8-byte slots (11 and 21) lie inside it and are disjoint; every slot byte of the template is 0xFF |
| Services.PointerRange | include/win32/service.hpp:68-70 | an 8-byte little-endian store holds exactly the pointer range, 2^64 values |
| Services.DecodeEncode | include/win32/service.hpp:68-70 | decoding the bytes written by a pointer-sized store gives back the stored value |
| Services.EncodeDecode | include/win32/service.hpp:68-70 | every 8-byte string is the store of the value it decodes to, so encoding is a bijection |
| Services.Patch | include/win32/service.hpp:77-78 | a pointer-sized store at an offset keeps the buffer length, leaves every byte outside the 8-byte slot unchanged, and puts the value's little-endian bytes in the slot |
| Services.CopyTemplate | include/win32/service.hpp:66 | after the memcpy the buffer holds exactly the template |
| Services.StorePointer | include/win32/service.hpp:68-70 | the in-place intptr_t store changes the buffer to Patch of its old contents |
| Services.PatchedTrunkKeepsTemplate | include/win32/service.hpp:66-78 | after construction every stub byte outside [11,19) and [21,29) equals the template byte |
| Services.PatchedTrunkSlots | include/win32/service.hpp:68-78 | bytes [11,19) encode the object's address and bytes [21,29) encode service_boot's address, and each decodes back to that address |
| Services.PatchedTrunkInjective | include/win32/service.hpp:66-78 | two stubs are equal only for the same object and the same service_boot address |
| Services.Service.Patched | include/win32/service.hpp:66-78 | construction after a successful VirtualAlloc stores name and proc and leaves the buffer holding the patched stub |
| Services.Service.Create | include/win32/service.hpp:54-64 | construction succeeds exactly when VirtualAlloc does; a failure yields the last-error code, no object and no live region; a success yields a fresh object whose stub is the freshly allocated, now live region, correctly patched |
| Services.Service.Dispose | include/win32/service.hpp:83-86 | the destructor releases the stub buffer with one VirtualFree, and the buffer must still be live |
| Services.ServiceLifetime | include/win32/service.hpp:54-86 | a service created and destroyed: a granted stub region is released exactly once and no region is left; a refused one is never released |
| Services.Service.Bootstrapper | include/win32/service.hpp:90-93 | the entry point is the stub buffer itself, whose contents are the patched stub |
| Services.Service.Name | include/win32/service.hpp:95-98 | the stored name is returned unchanged |
| Services.DwordToInt | include/win32/service.hpp:106 | the DWORD count passed to the int parameter keeps its 32 bits: the result is in int range and congruent to the input modulo 2^32 |
| Services.DwordToIntInjective | include/win32/service.hpp:106 | distinct argument counts reach the procedure as distinct ints |
| Services.Service.ServiceBoot | include/win32/service.hpp:104-107 | service_boot calls the stored procedure with the same argument vector and with the count converted to int; it fails with bad_function_call exactly when the procedure is empty |
| Services.BuildTable | include/win32/service.hpp:113-121 | the loop builds one entry per service, in iteration order, each pairing the service's name with its bootstrapper |
| Services.ServiceControlDispatcher | include/win32/service.hpp:113-133 | an empty range returns without calling the OS; otherwise the table handed to the OS has n+1 entries, the n entries in order and then the all-zero terminator; an OS failure yields the last-error code |
| Services.DispatchTableLength | include/win32/service.hpp:125-130 | the OS, reading the table up to the first all-zero entry, finds exactly the n services |
| Objects.Inc | include/win32/object.hpp:43-46 | incref's new count is the old count plus one, and 0 after ULONG_MAX |
| Objects.Dec | include/win32/object.hpp:36-41 | decref's new count is the old count minus one, and ULONG_MAX for a count of 0 |
| Objects.IncDecInverse | include/win32/object.hpp:36-46 | incref and decref undo each other on the 32-bit counter, and decref reaches 0 exactly from 1 |
| Objects.Released | include/win32/object.hpp:36-41 | after decref the object is gone exactly when its new count is 0; otherwise it has the new count; every other count is unchanged |
| Objects.Acquired | include/win32/object.hpp:43-46 | after incref the object has the incremented count and every other count is unchanged |
| Objects.Destroy | include/win32/object.hpp:39 | `delete this` runs the dynamic type's destructor: a handle_data payload makes exactly its destructor's calls |
| Objects.Heap.NewObject | include/win32/object.hpp:48-50 | a new object starts with the count given to the constructor, 1 when none is given, and a fresh identity |
| Objects.Heap.Incref | include/win32/object.hpp:43-46 | the count goes up by one and the new value is returned |
| Objects.Heap.Decref | include/win32/object.hpp:36-41 | the count goes down by one and the new value is returned; the object is deleted, and its destructor runs, exactly when that value is 0 |
| Objects.Heap.Adopt | include/win32/object.hpp:62-65 | a ref built from a raw pointer holds it and changes no count; a ref adopting a null `T*` keeps the counts balanced |
| Objects.AdoptNullKeepsBalance | include/win32/object.hpp:62-65 | a fresh ref adopting a null `T*` owns nothing, so every count still equals its number of owners |
| Objects.AdoptFreshKeepsBalance | include/win32/object.hpp:62-65 | adopting a freshly created object with count 1 keeps every count equal to its number of owners |
| Objects.Heap.Copy | include/win32/object.hpp:67-71 | the converting copy holds the same pointer and increments its count when it is non-null; a null copy changes no count; the counts stay balanced |
| Objects.CopyKeepsBalance | include/win32/object.hpp:67-71 | a converting copy keeps every count equal to its number of owners, unless the count would wrap |
| Objects.Heap.Drop | include/win32/object.hpp:73-76 | destroying a ref decrements its target exactly when the pointer is non-null; the target is deleted exactly when that ref was its last owner; the counts stay balanced |
| Objects.DropKeepsBalance | include/win32/object.hpp:73-76 | destroying a ref keeps the counts balanced, and deletes the target exactly when the ref was its only owner |
| Objects.Heap.Arrow | include/win32/object.hpp:78-81 | operator-> returns the held pointer and changes nothing |
| Objects.Heap.Assign | include/win32/object.hpp:83-90 | the left side ends up holding the right side's pointer; the old target is decremented (and deleted at 0) before the new one is incremented; for distinct targets: old −1, new +1, all others unchanged; the counts stay balanced for distinct refs while the new target's count stays below ULONG_MAX |
| Objects.AssignTargetSurvives | include/win32/object.hpp:83-90 | between distinct refs of a balanced heap, the decref of the old target never deletes the new target |
| Objects.AssignKeepsBalance | include/win32/object.hpp:83-90 | assignment between distinct refs keeps every count equal to its number of owners, unless the new count would wrap |
| Objects.Heap.CopyMemberwise | include/win32/handle.hpp:40-42 | the implicitly declared copy constructor of ref copies the pointer and changes no count |
| Objects.Heap.AssignMemberwise | include/win32/handle.hpp:49-53 | the implicitly declared copy assignment of ref overwrites the pointer and changes no count |
| Objects.MemberwiseCopyUnbalances | include/win32/handle.hpp:40-42 | a member-wise copy of the only ref leaves count 1 with two owners; destroying the copy deletes the object while the original still points at it |
| Objects.MemberwiseAssignUnbalances | include/win32/handle.hpp:49-53 | a member-wise assignment between the only refs of two objects leaves the old target with count 1 and no owner, and the new one with count 1 and two owners |
| HandleData.DestructorCalls | include/win32/handle.hpp:69-72 | ~handle_data closes h exactly when h differs from the invalid sentinel, closes nothing else, never closes the sentinel, and makes at most one call |
| HandleData.Destruct | include/win32/handle.hpp:69-72 | the destructor makes exactly those calls |
| Handles.Handle.constructor | include/win32/handle.hpp:35-38 | one new handle_data stores h and invalid verbatim, has count 1, and is adopted by data_; the counts stay balanced |
| Handles.Handle.Move | include/win32/handle.hpp:40-42 | the corrected move construction: data_ is rebound to the source's payload through the converting copy, whose count goes up by one; the counts stay balanced while that count stays below ULONG_MAX |
| Handles.Handle.MoveAsWritten | include/win32/handle.hpp:40-42 | the move construction as C++ resolves it: data_ is rebound to the source's payload; no count, payload or deletion changes |
| Handles.Handle.ToHandle | include/win32/handle.hpp:44-47 | the conversion to HANDLE yields the h stored in the payload, unchanged |
| Handles.Handle.MoveAssign | include/win32/handle.hpp:49-53 | the corrected move assignment: data_ is rebound to the source's payload; the old payload is decremented, and deleted and closed at 0; then the new one is incremented |
| Handles.Handle.MoveAssignAsWritten | include/win32/handle.hpp:49-53 | the move assignment as C++ resolves it: data_ is rebound; no count, payload or deletion changes |
| Handles.Handle.Dispose | include/win32/handle.hpp:78 | destroying a handle destroys data_: the payload is decremented, and is deleted and closes its handle only if this was its last owner |
| Handles.HandleLifetime | include/win32/handle.hpp:69-72 | with the corrected move (Handle.Move): a handle opened, moved into a second one, read through it and then both destroyed; the read yields h, and h is closed exactly once, after the last owner is gone (destroying the first handle closes nothing and leaves the payload with count 1), and never when it is the sentinel |
| Handles.HandleLifetimeAsWritten | include/win32/handle.hpp:40-42 | with the move as C++ resolves it (Handle.MoveAsWritten): the moved-to handle reads h, but destroying the moved-from handle deletes the payload and closes h while the moved-to handle still points at it |
| Security.SecurityDescriptor.Create | include/win32/security.hpp:35-55 | a failed allocation yields the last-error code and frees nothing; a failed InitializeSecurityDescriptor frees the fresh block before the error propagates; a success owns the fresh block; sole ownership is kept |
| Security.SecurityDescriptor.Adopt | include/win32/security.hpp:57-59 | the adopting constructor stores the given pointer as it is |
| Security.SecurityDescriptor.Move | include/win32/security.hpp:61-64 | the destination takes the source's pointer and the source becomes null; sole ownership is kept |
| Security.SecurityDescriptor.Dispose | include/win32/security.hpp:68-71 | the destructor frees the pointer exactly when it is non-null, and no other owner holds the freed block |
| Security.SecurityDescriptor.Pointer | include/win32/security.hpp:73-76 | the conversion returns the owned pointer and keeps ownership |
| Security.SecurityDescriptor.MoveAssign | include/win32/security.hpp:78-86 | the old pointer is freed when non-null; then the destination takes the source's pointer and the source becomes null; sole ownership is kept |
| Security.DescriptorLifetime | include/win32/security.hpp:35-71 | a descriptor created, moved into a second one and both destroyed: whatever the OS answers, a block LocalAlloc hands out is freed exactly once and none is left allocated |
| Security.SecurityAttributes.constructor | include/win32/security.hpp:95-99 | the descriptor (none by default) is attached and the record is filled by init, with inheritance off by default |
| Security.SecurityAttributes.Init | include/win32/security.hpp:119-125 | the record length is the struct size, the descriptor field is the attached descriptor's pointer (null without one), and the inherit flag is TRUE exactly when requested, FALSE otherwise |
| Security.SecurityAttributes.Move | include/win32/security.hpp:101-106 | the destination takes the record and the descriptor; the source's descriptor field and sd_ become null, and its other fields are kept; both stay consistent with their attached descriptor |

## Left out

- Executing the stub is not modelled: x86-64 semantics, the calling convention and `VirtualAlloc`'s page protection are outside the model. Only the bytes are modelled.
- The object's address (`this`) and `service_boot`'s code address are parameters of `Services.Service.Create`. The model cannot take them from memory.
- Services.Service.Create: models `service(name, proc)` as a factory that returns an error instead of throwing.
- `~service`'s null check cannot fail in the model, because a `Service` exists only after its buffer was allocated.
- The procedure (`std::function`) is either empty or a target known by its identity, and its call is the value returned by `ServiceBoot`. What the target does is not part of the core.
- The argument vector and the C string built by `c_str()` are modelled only by the pointer and the name they carry.
- Services.Service.Name: the `std::wstring` name is a `seq<char>`. A Dafny `char` is a Unicode scalar value, so a name holding an unpaired UTF-16 surrogate cannot be expressed. The name is only stored and passed through.
- The exception that `service_boot` raises for an empty procedure is returned as `Err(BadFunctionCall)`. What happens when it escapes into the OS's callback is not modelled.
- Services.DwordToInt: assumes the two's-complement conversion that MSVC performs. Before C++20 this conversion is implementation-defined.
- `StartServiceCtrlDispatcherW` blocks and calls back into the stubs. The model has only its success or failure.
- The counter is updated sequentially in the model. The atomicity of `fetch_add` and `fetch_sub`, and concurrency in general, are not modelled.
- Objects.Heap.Assign: the balance invariant is proved only for distinct refs, and only while the new target's count stays below ULONG_MAX. Self-assignment decrefs before incref, which the header leaves unspecified, and at 2^32 owners the counter wraps.
- Objects.Heap.Adopt: has no default argument. The source's `= nullptr` default can never be used, because `Y` cannot be deduced from a default argument, and `nullptr` is not a `Y *`. A null ref arises only from a typed null pointer, which is `Adopt(None)`.
- Handles.Handle.Move: the balance invariant is stated only while the payload's count stays below ULONG_MAX, because at 2^32 owners the counter wraps.
- Objects.Heap.Copy: the balance invariant is stated only while the count stays below ULONG_MAX, because at 2^32 owners the counter wraps.
- Handles.Handle.MoveAssign: the balance invariant is stated only for distinct handles and only while the new target's count stays below ULONG_MAX, for the same two reasons.
- Security.SecurityDescriptor.MoveAssign: sole ownership is stated only for src != this. Self move-assignment frees the block first, and the model shows that it leaves the object null.
- `LocalAlloc`'s `LPTR` zero-fill and the contents of the descriptor are not modelled. Only the block's identity is tracked.
- The descriptor pointer that a `security_attributes` record copies is not updated if the descriptor is later moved from, and the model keeps that: `Attached()` holds after construction and move, not after unrelated changes to the descriptor.
- `security_attributes::operator LPSECURITY_ATTRIBUTES()` returns the address of the record. Addresses of fields are not modelled; the record is readable as the `data` field.
- Several constructors carry stray `= default` tokens that are not valid C++ (security.hpp:35, 96; object.hpp:48, 63; handle.hpp:36). They are modelled by their bodies as written.
- Deleted copy operations need no model.
- event_tracing.hpp, com.hpp, error.hpp, rights.hpp, file.hpp and hash.hpp are not part of this model. They only forward to Win32, to COM or to `std::hash`, or they declare constants.

## Findings

| source | as written | input that shows it | evidently intended | confidence | as-written member | corrected member |
|---|---|---|---|---|---|---|
| include/win32/handle.hpp:40-42 | `data_(std::move(src.data_))` binds to the implicitly declared copy constructor of `ref<handle_data>`, since a constructor template is never a copy constructor and `ref` declares no move constructor; the pointer is copied and the count is not incremented | `handle a(h, inv); handle b(std::move(a));`, then both destroyed: the payload's count is 1 with two owners, so the first destructor deletes it and the second decrefs a deleted object | the converting copy at object.hpp:67-71, which increments the count | high (not executed) | Handles.Handle.MoveAsWritten, Handles.HandleLifetimeAsWritten, Objects.MemberwiseCopyUnbalances | Handles.Handle.Move, Handles.HandleLifetime, Objects.CopyKeepsBalance |
| include/win32/handle.hpp:49-53 | `data_ = std::move(src.data_)` binds to the implicitly declared copy assignment of `ref<handle_data>`, so the old payload is never decremented and the new one never incremented | two handles `a`, `b` on different payloads, each with count 1; `a = std::move(b)`: `a`'s old payload is leaked (count 1, no owner) and `b`'s has count 1 with two owners | the template assignment at object.hpp:83-90 | high (not executed) | Handles.Handle.MoveAssignAsWritten, Objects.MemberwiseAssignUnbalances | Handles.Handle.MoveAssign, Objects.AssignKeepsBalance |
