/** The operating-system side of the model.

    The headers only call into Win32; here every such call is an event appended
    to a log, and what the OS answers (an allocation result, a success flag, the
    last-error code) is supplied by the caller of the model as a parameter.
    The kernel's bookkeeping of LocalAlloc blocks is kept as a set, so that a
    LocalFree of a block that is not currently allocated cannot be expressed. */
module Kernel {

  const WORD32: int := 0x1_0000_0000
  const WORD64: int := 0x1_0000_0000_0000_0000

  type Byte = x: int | 0 <= x < 256

  /** DWORD, and also `unsigned long`, which is 32 bits wide on 64-bit Windows. */
  type Dword = x: int | 0 <= x < WORD32

  /** A pointer-sized value (HANDLE, LPVOID, the bit pattern of an intptr_t). */
  type Ptr = x: int | 0 <= x < WORD64

  const NULL: Ptr := 0

  datatype Option<T> = None | Some(value: T)

  /** std::system_error(code, std::system_category()), raised with GetLastError(),
      and std::bad_function_call, raised by calling an empty std::function. */
  datatype Error = SystemError(code: Dword) | BadFunctionCall

  datatype Result<T> = Ok(value: T) | Err(error: Error)

  datatype Outcome = Pass | Fail(error: Error)

  /** The Win32 calls whose effects the core depends on. */
  datatype Call =
    | VirtualAlloc(bytes: nat, result: array?<Byte>)
    | VirtualFree(region: array<Byte>)
    | LocalAlloc(bytes: nat, block: Ptr)
    | InitializeSecurityDescriptor(descriptor: Ptr, revision: Dword)
    | LocalFree(block: Ptr)
    | CloseHandle(h: Ptr)

  class Kernel {
    /** Every call made so far, in order. */
    var calls: seq<Call>
    /** The LocalAlloc blocks that have not been freed. */
    var localBlocks: set<Ptr>
    /** The VirtualAlloc regions that have not been released. */
    var regions: set<array<Byte>>

    constructor ()
      ensures calls == [] && localBlocks == {} && regions == {}
    {
      calls := [];
      localBlocks := {};
      regions := {};
    }

    /** VirtualAlloc of `bytes` bytes: a fresh region when `granted`, NULL otherwise. */
    method VirtualAlloc(bytes: nat, granted: bool) returns (region: array?<Byte>)
      modifies this`calls, this`regions
      ensures granted <==> region != null
      ensures region != null ==> fresh(region) && region.Length == bytes
      ensures calls == old(calls) + [Call.VirtualAlloc(bytes, region)]
      ensures regions == if region == null then old(regions) else old(regions) + {region}
    {
      if granted {
        region := new Byte[bytes];
      } else {
        region := null;
      }
      calls := calls + [Call.VirtualAlloc(bytes, region)];
      if region != null {
        regions := regions + {region};
      }
    }

    /** LocalAlloc answers `block`: NULL on failure, otherwise a block that is not in use. */
    method LocalAlloc(bytes: nat, block: Ptr) returns (p: Ptr)
      requires block == NULL || block !in localBlocks
      modifies this`calls, this`localBlocks
      ensures p == block
      ensures calls == old(calls) + [Call.LocalAlloc(bytes, block)]
      ensures localBlocks == if block == NULL then old(localBlocks) else old(localBlocks) + {block}
    {
      p := block;
      calls := calls + [Call.LocalAlloc(bytes, block)];
      if block != NULL {
        localBlocks := localBlocks + {block};
      }
    }

    /** LocalFree of a block that is currently allocated; freeing anything else is undefined. */
    method LocalFree(block: Ptr)
      requires block in localBlocks
      modifies this`calls, this`localBlocks
      ensures calls == old(calls) + [Call.LocalFree(block)]
      ensures localBlocks == old(localBlocks) - {block}
    {
      calls := calls + [Call.LocalFree(block)];
      localBlocks := localBlocks - {block};
    }

    method InitializeSecurityDescriptor(descriptor: Ptr, revision: Dword, succeeds: bool) returns (ok: bool)
      modifies this`calls
      ensures ok == succeeds
      ensures calls == old(calls) + [Call.InitializeSecurityDescriptor(descriptor, revision)]
    {
      ok := succeeds;
      calls := calls + [Call.InitializeSecurityDescriptor(descriptor, revision)];
    }

    method CloseHandle(h: Ptr)
      modifies this`calls
      ensures calls == old(calls) + [Call.CloseHandle(h)]
    {
      calls := calls + [Call.CloseHandle(h)];
    }

    /** VirtualFree(region, 0, MEM_RELEASE) of a region that has not been released yet. */
    method VirtualFree(region: array<Byte>)
      requires region in regions
      modifies this`calls, this`regions
      ensures calls == old(calls) + [Call.VirtualFree(region)]
      ensures regions == old(regions) - {region}
    {
      calls := calls + [Call.VirtualFree(region)];
      regions := regions - {region};
    }
  }
}
