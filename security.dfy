/** `security_descriptor`, a move-only owner of a LocalAlloc'd security
    descriptor, and `security_attributes`, which fills a SECURITY_ATTRIBUTES
    record that points at such a descriptor without owning it. */
module Security {
  import opened Kernel

  /** SECURITY_DESCRIPTOR_MIN_LENGTH, sizeof(SECURITY_DESCRIPTOR) on x64. */
  const SecurityDescriptorMinLength: nat := 40
  /** SECURITY_DESCRIPTOR_REVISION */
  const SecurityDescriptorRevision: Dword := 1
  /** sizeof(SECURITY_ATTRIBUTES) on x64: a DWORD, an LPVOID and a BOOL, padded to 8. */
  const SecurityAttributesSize: Dword := 24
  /** The Win32 BOOL values. */
  const TRUE: Dword := 1
  const FALSE: Dword := 0

  class SecurityDescriptor {
    /** data_: the owned PSECURITY_DESCRIPTOR, or nullptr once moved from. */
    var data: Ptr

    /** explicit security_descriptor(PSECURITY_DESCRIPTOR data): takes the pointer as it is. */
    constructor Adopt(p: Ptr)
      ensures data == p
    {
      data := p;
    }

    /** security_descriptor(): LocalAlloc a block of the minimum length, then
        InitializeSecurityDescriptor it. LocalAlloc answers `block` (NULL when it
        fails) and InitializeSecurityDescriptor answers `initSucceeds`; `lastError`
        is what GetLastError returns after the failing call. A failed
        initialisation frees the block before the error propagates. */
    static method Create(k: Kernel, block: Ptr, initSucceeds: bool, lastError: Dword,
                         ghost owners: set<SecurityDescriptor>)
      returns (r: Result<SecurityDescriptor>)
      requires block == NULL || block !in k.localBlocks
      modifies k`calls, k`localBlocks
      ensures block == NULL ==>
                && r == Err(SystemError(lastError))
                && k.calls == old(k.calls) + [Call.LocalAlloc(SecurityDescriptorMinLength, NULL)]
                && k.localBlocks == old(k.localBlocks)
      ensures block != NULL && !initSucceeds ==>
                && r == Err(SystemError(lastError))
                && k.calls == old(k.calls) + [Call.LocalAlloc(SecurityDescriptorMinLength, block),
                                              Call.InitializeSecurityDescriptor(block, SecurityDescriptorRevision),
                                              Call.LocalFree(block)]
                && k.localBlocks == old(k.localBlocks)
      ensures block != NULL && initSucceeds ==>
                && r.Ok? && fresh(r.value) && r.value.data == block
                && k.calls == old(k.calls) + [Call.LocalAlloc(SecurityDescriptorMinLength, block),
                                              Call.InitializeSecurityDescriptor(block, SecurityDescriptorRevision)]
                && k.localBlocks == old(k.localBlocks) + {block}
      ensures r.Ok? && old(SoleOwners(owners, k)) ==> SoleOwners(owners + {r.value}, k)
    {
      var p := k.LocalAlloc(SecurityDescriptorMinLength, block);
      if p == NULL {
        return Err(SystemError(lastError));
      }
      var ok := k.InitializeSecurityDescriptor(p, SecurityDescriptorRevision, initSucceeds);
      if !ok {
        k.LocalFree(p);
        return Err(SystemError(lastError));
      }
      var d := new SecurityDescriptor.Adopt(p);
      r := Ok(d);
    }

    /** security_descriptor(security_descriptor&& src): takes src's pointer and
        leaves src null, so exactly one of the two owns the block. */
    constructor Move(src: SecurityDescriptor, ghost owners: set<SecurityDescriptor>, ghost k: Kernel)
      modifies src
      ensures data == old(src.data) && src.data == NULL
      ensures src in owners && old(SoleOwners(owners, k)) ==> SoleOwners(owners + {this}, k)
    {
      data := src.data;
      new;
      src.data := NULL;
    }

    /** ~security_descriptor(): LocalFree(data_) when data_ is not null. */
    method Dispose(k: Kernel, ghost owners: set<SecurityDescriptor>)
      requires data != NULL ==> data in k.localBlocks
      modifies k`calls, k`localBlocks
      ensures data != NULL ==>
                k.calls == old(k.calls) + [Call.LocalFree(data)] && k.localBlocks == old(k.localBlocks) - {data}
      ensures data == NULL ==> k.calls == old(k.calls) && k.localBlocks == old(k.localBlocks)
      ensures this in owners && old(SoleOwners(owners, k)) ==>
                && SoleOwners(owners - {this}, k)
                && (data != NULL ==> forall e | e in owners - {this} :: e.data != data)
    {
      if data != NULL {
        k.LocalFree(data);
      }
    }

    /** operator PSECURITY_DESCRIPTOR(): the owned pointer, ownership kept. */
    function Pointer(): (p: Ptr)
      reads this
      ensures p == data
    {
      data
    }

    /** operator=(security_descriptor&& src): frees the current block when there
        is one, takes src's pointer and nulls src. With src == this the block is
        freed and the object is left null, as the body is written. */
    method MoveAssign(src: SecurityDescriptor, k: Kernel, ghost owners: set<SecurityDescriptor>)
      requires data != NULL ==> data in k.localBlocks
      modifies this, src, k`calls, k`localBlocks
      ensures src != this ==> data == old(src.data) && src.data == NULL
      ensures src == this ==> data == NULL
      ensures old(data) != NULL ==>
                k.calls == old(k.calls) + [Call.LocalFree(old(data))] && k.localBlocks == old(k.localBlocks) - {old(data)}
      ensures old(data) == NULL ==> k.calls == old(k.calls) && k.localBlocks == old(k.localBlocks)
      ensures this in owners && src in owners && src != this && old(SoleOwners(owners, k)) ==>
                && SoleOwners(owners, k)
                && (old(data) != NULL ==> forall e | e in owners :: e.data != old(data))
    {
      if data != NULL {
        k.LocalFree(data);
      }
      data := src.data;
      src.data := NULL;
    }
  }

  /** Ownership of LocalAlloc blocks by descriptors: every non-null pointer held
      by one of `owners` is a live block, and no two of them hold the same one.
      Then each block is freed at most once, by the one descriptor that holds it. */
  ghost predicate SoleOwners(owners: set<SecurityDescriptor>, k: Kernel)
    reads owners, k
  {
    && (forall d | d in owners && d.data != NULL :: d.data in k.localBlocks)
    && (forall d, e | d in owners && e in owners && d != e && d.data != NULL :: d.data != e.data)
  }

  /** A descriptor created, moved into a second one and then both destroyed:
      whatever InitializeSecurityDescriptor answers, a block that LocalAlloc
      hands out is freed exactly once, and no block is left allocated. */
  method DescriptorLifetime(k: Kernel, block: Ptr, initSucceeds: bool, lastError: Dword)
    requires block == NULL || block !in k.localBlocks
    modifies k`calls, k`localBlocks
    ensures k.localBlocks == old(k.localBlocks)
    ensures block == NULL ==> k.calls == old(k.calls) + [Call.LocalAlloc(SecurityDescriptorMinLength, NULL)]
    ensures block != NULL ==>
              k.calls == old(k.calls) + [Call.LocalAlloc(SecurityDescriptorMinLength, block),
                                         Call.InitializeSecurityDescriptor(block, SecurityDescriptorRevision),
                                         Call.LocalFree(block)]
  {
    var r := SecurityDescriptor.Create(k, block, initSucceeds, lastError, {});
    if r.Ok? {
      var a := r.value;
      var b := new SecurityDescriptor.Move(a, {a}, k);
      b.Dispose(k, {a, b});
      a.Dispose(k, {a});
    }
  }

  /** SECURITY_ATTRIBUTES: nLength, lpSecurityDescriptor, bInheritHandle. */
  datatype AttributesRecord = AttributesRecord(nLength: Dword, lpSecurityDescriptor: Ptr, bInheritHandle: Dword)

  /** The record after memset(&data_, 0, sizeof(data_)). */
  const ZeroRecord := AttributesRecord(0, NULL, FALSE)

  class SecurityAttributes {
    /** data_ */
    var data: AttributesRecord
    /** sd_: the attached descriptor, not owned; null when there is none. */
    var sd: SecurityDescriptor?

    /** The record's descriptor field is the attached descriptor's pointer, or null without one. */
    ghost predicate Attached()
      reads this, sd
    {
      data.lpSecurityDescriptor == if sd == null then NULL else sd.data
    }

    /** explicit security_attributes(sd = nullptr, inherit_handle = false) : sd_(sd) { init(inherit_handle); } */
    constructor (sd: SecurityDescriptor? := null, inheritHandle: bool := false)
      ensures this.sd == sd
      ensures data.nLength == SecurityAttributesSize
      ensures data.lpSecurityDescriptor == if sd == null then NULL else sd.data
      ensures data.bInheritHandle == TRUE <==> inheritHandle
      ensures data.bInheritHandle == FALSE <==> !inheritHandle
      ensures Attached()
    {
      this.sd := sd;
      data := ZeroRecord;
      new;
      Init(inheritHandle);
    }

    /** init(inherit_handle): zero the record, then set its length to the struct
        size, its descriptor to the attached descriptor's pointer, and its
        inherit flag to TRUE exactly when asked. */
    method Init(inheritHandle: bool := false)
      modifies this`data
      ensures data.nLength == SecurityAttributesSize
      ensures data.lpSecurityDescriptor == if sd == null then NULL else sd.data
      ensures data.bInheritHandle == TRUE <==> inheritHandle
      ensures data.bInheritHandle == FALSE <==> !inheritHandle
      ensures Attached()
    {
      data := ZeroRecord;
      data := data.(nLength := SecurityAttributesSize);
      var p := NULL;
      if sd != null {
        p := sd.Pointer();
      }
      data := data.(lpSecurityDescriptor := p);
      data := data.(bInheritHandle := if inheritHandle then TRUE else FALSE);
    }

    /** security_attributes(security_attributes&& src): copies the record and the
        descriptor pointer, then detaches src from the descriptor; src keeps its
        length and inherit flag. */
    constructor Move(src: SecurityAttributes)
      modifies src
      ensures data == old(src.data) && sd == old(src.sd)
      ensures src.data == old(src.data).(lpSecurityDescriptor := NULL) && src.sd == null
      ensures src.Attached()
      ensures old(src.Attached()) ==> Attached()
    {
      data := src.data;
      sd := src.sd;
      new;
      src.data := src.data.(lpSecurityDescriptor := NULL);
      src.sd := null;
    }
  }
}
