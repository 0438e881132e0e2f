/** The service entry-point stub and the service control dispatch table.

    The OS calls a service's entry point as a bare function pointer with no
    context, so each `service` object builds its own 36-byte x86-64 stub: a
    fixed template in which two 8-byte immediates are overwritten with the
    object's address and with the address of its `service_boot` member.
    Executing the stub is not modelled; only its bytes are. */
module Services {
  import opened Kernel

  /** service_main_trunk: sub rsp,18h; mov r8,rdx; mov edx,ecx; mov rcx,imm64;
      mov rax,imm64; call rax; add rsp,18h; ret. Both imm64 are 0xFF placeholders. */
  const TrunkTemplate: seq<Byte> := [
    0x48, 0x83, 0xEC, 0x18, 0x4C, 0x8B, 0xC2, 0x8B,
    0xD1, 0x48, 0xB9, 0xFF, 0xFF, 0xFF, 0xFF, 0xFF,
    0xFF, 0xFF, 0xFF, 0x48, 0xB8, 0xFF, 0xFF, 0xFF,
    0xFF, 0xFF, 0xFF, 0xFF, 0xFF, 0xFF, 0xD0, 0x48,
    0x83, 0xC4, 0x18, 0xC3
  ]

  const TrunkSize: nat := 36
  /** SERVICE_MAIN_TRUNK_THIS_OFFSET: the immediate of `mov rcx, imm64` */
  const ThisOffset: nat := 11
  /** SERVICE_MAIN_TRUNK_PROC_OFFSET: the immediate of `mov rax, imm64` */
  const ProcOffset: nat := 21
  /** sizeof(std::intptr_t) on x86-64 */
  const PointerSize: nat := 8

  /** Byte i of the stub belongs to one of the two pointer slots. */
  predicate InSlot(i: int) {
    || ThisOffset <= i < ThisOffset + PointerSize
    || ProcOffset <= i < ProcOffset + PointerSize
  }

  lemma TrunkLayout()
    ensures |TrunkTemplate| == TrunkSize
    ensures ThisOffset + PointerSize <= ProcOffset && ProcOffset + PointerSize <= TrunkSize
    ensures forall i | 0 <= i < TrunkSize && InSlot(i) :: TrunkTemplate[i] == 0xFF
  {
  }

  // ---------------------------------------------------------------------------
  // Pointer-sized stores: x86-64 stores an intptr_t least significant byte first.

  function Pow256(n: nat): (p: nat)
    ensures p > 0
  {
    if n == 0 then 1 else 256 * Pow256(n - 1)
  }

  lemma PointerRange()
    ensures Pow256(PointerSize) == WORD64
  {
    assert Pow256(4) == 0x1_0000_0000;
  }

  /** The n bytes of v, least significant first. */
  function LittleEndian(v: nat, n: nat): (bs: seq<Byte>)
    ensures |bs| == n
  {
    if n == 0 then [] else [v % 256] + LittleEndian(v / 256, n - 1)
  }

  /** The value of a little-endian byte string. */
  function FromLittleEndian(bs: seq<Byte>): (v: nat)
    ensures v < Pow256(|bs|)
  {
    if bs == [] then 0 else bs[0] + 256 * FromLittleEndian(bs[1..])
  }

  lemma {:induction false} DecodeEncode(v: nat, n: nat)
    requires v < Pow256(n)
    ensures FromLittleEndian(LittleEndian(v, n)) == v
  {
    if n > 0 {
      DecodeEncode(v / 256, n - 1);
      assert LittleEndian(v, n)[1..] == LittleEndian(v / 256, n - 1);
    }
  }

  lemma {:induction false} EncodeDecode(bs: seq<Byte>)
    ensures LittleEndian(FromLittleEndian(bs), |bs|) == bs
  {
    if bs != [] {
      EncodeDecode(bs[1..]);
      var v := FromLittleEndian(bs);
      assert v % 256 == bs[0] && v / 256 == FromLittleEndian(bs[1..]);
    }
  }

  /** buf with one pointer-sized store of v at offset. */
  function Patch(buf: seq<Byte>, offset: nat, v: Ptr): (r: seq<Byte>)
    requires offset + PointerSize <= |buf|
    ensures |r| == |buf|
    ensures forall i | 0 <= i < |buf| && !(offset <= i < offset + PointerSize) :: r[i] == buf[i]
    ensures r[offset..offset + PointerSize] == LittleEndian(v, PointerSize)
  {
    buf[..offset] + LittleEndian(v, PointerSize) + buf[offset + PointerSize..]
  }

  /** The stub of a service object at address self whose service_boot is at boot. */
  function PatchedTrunk(self: Ptr, boot: Ptr): seq<Byte>
  {
    Patch(Patch(TrunkTemplate, ThisOffset, self), ProcOffset, boot)
  }

  lemma PatchedTrunkKeepsTemplate(self: Ptr, boot: Ptr)
    ensures |PatchedTrunk(self, boot)| == TrunkSize
    ensures forall i | 0 <= i < TrunkSize && !InSlot(i) :: PatchedTrunk(self, boot)[i] == TrunkTemplate[i]
  {
  }

  lemma PatchedTrunkSlots(self: Ptr, boot: Ptr)
    ensures |PatchedTrunk(self, boot)| == TrunkSize
    ensures PatchedTrunk(self, boot)[ThisOffset..ThisOffset + PointerSize] == LittleEndian(self, PointerSize)
    ensures PatchedTrunk(self, boot)[ProcOffset..ProcOffset + PointerSize] == LittleEndian(boot, PointerSize)
    ensures FromLittleEndian(PatchedTrunk(self, boot)[ThisOffset..ThisOffset + PointerSize]) == self
    ensures FromLittleEndian(PatchedTrunk(self, boot)[ProcOffset..ProcOffset + PointerSize]) == boot
  {
    var once := Patch(TrunkTemplate, ThisOffset, self);
    var twice := PatchedTrunk(self, boot);
    assert twice[ThisOffset..ThisOffset + PointerSize] == once[ThisOffset..ThisOffset + PointerSize];
    PointerRange();
    DecodeEncode(self, PointerSize);
    DecodeEncode(boot, PointerSize);
  }

  /** No two (object, service_boot) pairs produce the same stub. */
  lemma PatchedTrunkInjective(self: Ptr, boot: Ptr, self': Ptr, boot': Ptr)
    requires PatchedTrunk(self, boot) == PatchedTrunk(self', boot')
    ensures self == self' && boot == boot'
  {
    PatchedTrunkSlots(self, boot);
    PatchedTrunkSlots(self', boot');
  }

  /** memcpy(proctrunk_, service_main_trunk, sizeof(service_main_trunk)) */
  method CopyTemplate(buf: array<Byte>)
    requires buf.Length == TrunkSize
    modifies buf
    ensures buf[..] == TrunkTemplate
  {
    for i := 0 to buf.Length
      invariant forall k | 0 <= k < i :: buf[k] == TrunkTemplate[k]
    {
      buf[i] := TrunkTemplate[i];
    }
  }

  /** reinterpret_cast<std::intptr_t *>(buf + offset)[0] = v: one pointer-sized store. */
  method StorePointer(buf: array<Byte>, offset: nat, v: Ptr)
    requires offset + PointerSize <= buf.Length
    modifies buf
    ensures buf[..] == Patch(old(buf[..]), offset, v)
  {
    ghost var before := buf[..];
    var bytes := LittleEndian(v, PointerSize);
    forall k | 0 <= k < PointerSize {
      buf[offset + k] := bytes[k];
    }
    ghost var after := Patch(before, offset, v);
    assert buf[..] == after;
  }

  // ---------------------------------------------------------------------------
  // The service object.

  /** The std::function<void(int, wchar_t **)> held in proc_: empty, or a
      callable target known by its identity. */
  datatype Procedure = Empty | Target(id: nat)

  /** One call of the stored procedure, with the arguments it received. */
  datatype Invocation = Invocation(proc: Procedure, argc: int, argv: Ptr)

  /** The conversion of a DWORD argument to the procedure's `int` parameter:
      the same 32 bits read as two's complement. */
  function DwordToInt(x: Dword): (i: int)
    ensures -0x8000_0000 <= i < 0x8000_0000
    ensures (i - x) % WORD32 == 0
  {
    if x < 0x8000_0000 then x else x - WORD32
  }

  lemma DwordToIntInjective(x: Dword, y: Dword)
    requires DwordToInt(x) == DwordToInt(y)
    ensures x == y
  {
  }

  class Service {
    /** name_ */
    const name: seq<char>
    /** proc_ */
    const proc: Procedure
    /** The address of this object, written into the stub. */
    const address: Ptr
    /** The code address of service_boot, written into the stub. */
    const bootAddress: Ptr
    /** proctrunk_: the executable buffer holding the stub. */
    const proctrunk: array<Byte>

    ghost predicate Valid()
      reads this, proctrunk
    {
      proctrunk[..] == PatchedTrunk(address, bootAddress)
    }

    /** The part of the constructor after VirtualAlloc succeeded with `stub`. */
    constructor Patched(name: seq<char>, proc: Procedure, address: Ptr, bootAddress: Ptr, stub: array<Byte>)
      requires stub.Length == TrunkSize
      modifies stub
      ensures this.name == name && this.proc == proc
      ensures this.address == address && this.bootAddress == bootAddress
      ensures proctrunk == stub
      ensures Valid()
    {
      this.name := name;
      this.proc := proc;
      this.address := address;
      this.bootAddress := bootAddress;
      proctrunk := stub;
      new;
      CopyTemplate(stub);
      StorePointer(stub, ThisOffset, address);
      StorePointer(stub, ProcOffset, bootAddress);
    }

    /** service(name, proc). VirtualAlloc's answer is `granted`; on failure the
        constructor throws the last-error code and no object exists. */
    static method Create(k: Kernel, name: seq<char>, proc: Procedure, address: Ptr, bootAddress: Ptr,
                         granted: bool, lastError: Dword) returns (r: Result<Service>)
      modifies k`calls, k`regions
      ensures r.Ok? <==> granted
      ensures !granted ==>
                && r == Err(SystemError(lastError))
                && k.calls == old(k.calls) + [Call.VirtualAlloc(TrunkSize, null)]
                && k.regions == old(k.regions)
      ensures r.Ok? ==> && fresh(r.value) && fresh(r.value.proctrunk)
                        && r.value.name == name && r.value.proc == proc
                        && r.value.address == address && r.value.bootAddress == bootAddress
                        && r.value.Valid()
                        && k.calls == old(k.calls) + [Call.VirtualAlloc(TrunkSize, r.value.proctrunk)]
                        && k.regions == old(k.regions) + {r.value.proctrunk}
    {
      var stub := k.VirtualAlloc(TrunkSize, granted);
      if stub == null {
        return Err(SystemError(lastError));
      }
      var s := new Service.Patched(name, proc, address, bootAddress, stub);
      return Ok(s);
    }

    /** ~service(): proctrunk_ is never null once construction succeeded, so it is
        always released, and it must not have been released before. */
    method Dispose(k: Kernel)
      requires proctrunk in k.regions
      modifies k`calls, k`regions
      ensures k.calls == old(k.calls) + [Call.VirtualFree(proctrunk)]
      ensures k.regions == old(k.regions) - {proctrunk}
    {
      k.VirtualFree(proctrunk);
    }

    /** bootstrapper(): the entry point handed to the OS is the stub itself. */
    function Bootstrapper(): (entry: array<Byte>)
      reads this, proctrunk
      ensures entry == proctrunk
      ensures Valid() ==> entry[..] == PatchedTrunk(address, bootAddress)
    {
      proctrunk
    }

    function Name(): (n: seq<char>)
      ensures n == name
    {
      name
    }

    /** service_boot(dwArgc, lpszArgv): the stored procedure is called once, with the
        same argument vector and the argument count read as an int; calling an
        empty std::function throws std::bad_function_call instead. */
    function ServiceBoot(argc: Dword, argv: Ptr): (call: Result<Invocation>)
      ensures call.Err? <==> proc.Empty?
      ensures call.Err? ==> call.error == BadFunctionCall
      ensures call.Ok? ==> && call.value.proc == proc && call.value.argv == argv
                           && -0x8000_0000 <= call.value.argc < 0x8000_0000
                           && (call.value.argc - argc) % WORD32 == 0
    {
      if proc.Empty? then Err(BadFunctionCall) else Ok(Invocation(proc, DwordToInt(argc), argv))
    }
  }

  /** A service created and then destroyed: when VirtualAlloc grants the stub
      buffer, that region is released exactly once and no region is left. */
  method ServiceLifetime(k: Kernel, name: seq<char>, proc: Procedure, address: Ptr, bootAddress: Ptr,
                         granted: bool, lastError: Dword) returns (r: Result<Service>)
    modifies k`calls, k`regions
    ensures k.regions == old(k.regions)
    ensures r.Err? <==> !granted
    ensures !granted ==> k.calls == old(k.calls) + [Call.VirtualAlloc(TrunkSize, null)]
    ensures granted ==> k.calls == old(k.calls) + [Call.VirtualAlloc(TrunkSize, r.value.proctrunk),
                                                   Call.VirtualFree(r.value.proctrunk)]
  {
    r := Service.Create(k, name, proc, address, bootAddress, granted, lastError);
    if r.Ok? {
      r.value.Dispose(k);
    }
  }

  // ---------------------------------------------------------------------------
  // service_control_dispatcher

  /** SERVICE_TABLE_ENTRYW: lpServiceName and lpServiceProc; None is a null pointer. */
  datatype TableEntry = TableEntry(serviceName: Option<seq<char>>, serviceProc: Option<array<Byte>>)

  /** SERVICE_TABLE_ENTRYW svc = {0} */
  const Terminator: TableEntry := TableEntry(None, None)

  function EntryFor(s: Service): TableEntry
  {
    TableEntry(Some(s.name), Some(s.proctrunk))
  }

  /** The loop that push_backs one entry per service of the range. */
  method BuildTable(services: seq<Service>) returns (table: seq<TableEntry>)
    ensures |table| == |services|
    ensures forall i | 0 <= i < |services| :: table[i] == EntryFor(services[i])
  {
    table := [];
    for i := 0 to |services|
      invariant |table| == i
      invariant forall j | 0 <= j < i :: table[j] == EntryFor(services[j])
    {
      var svc := TableEntry(Some(services[i].Name()), Some(services[i].Bootstrapper()));
      table := table + [svc];
    }
  }

  /** service_control_dispatcher(first, last). `handed` is the table passed to
      StartServiceCtrlDispatcherW, None when the call is not made; `started` is
      what that call answers. */
  method ServiceControlDispatcher(services: seq<Service>, started: bool, lastError: Dword)
    returns (handed: Option<seq<TableEntry>>, outcome: Outcome)
    ensures services == [] ==> handed == None && outcome == Pass
    ensures services != [] ==> handed.Some?
    ensures handed.Some? ==> && |handed.value| == |services| + 1
                             && handed.value[|services|] == Terminator
                             && forall i | 0 <= i < |services| :: handed.value[i] == EntryFor(services[i])
    ensures services != [] ==> outcome == if started then Pass else Fail(SystemError(lastError))
  {
    var table := BuildTable(services);
    if |table| == 0 {
      return None, Pass;
    }
    table := table + [Terminator];
    handed := Some(table);
    if !started {
      return handed, Fail(SystemError(lastError));
    }
    outcome := Pass;
  }

  /** How many services the OS finds: the entries before the first all-zero one. */
  function ServicesInTable(t: seq<TableEntry>): nat
  {
    if t == [] || t[0] == Terminator then 0 else 1 + ServicesInTable(t[1..])
  }

  /** The table handed to the OS lists exactly the n services of the range. */
  lemma {:induction false} DispatchTableLength(services: seq<Service>, t: seq<TableEntry>)
    requires |t| == |services| + 1 && t[|services|] == Terminator
    requires forall i | 0 <= i < |services| :: t[i] == EntryFor(services[i])
    ensures ServicesInTable(t) == |services|
  {
    if services != [] {
      assert t[0] != Terminator;
      DispatchTableLength(services[1..], t[1..]);
    }
  }
}
