/** Intrusive reference counting: `refcounting` and the smart pointer `ref<T>`.

    Every refcounting object lives in a `Heap`, which maps the object (by an
    identity standing for its address) to the value of its refcnt_ field, and
    every ref<T> instance (by an identity standing for its address) to the
    pointer it holds. The counter is an `unsigned long`, 32 bits wide on
    Windows, so incref and decref wrap around modulo 2^32 as the source does. */
module Objects {
  import opened Kernel
  import HandleData

  type ObjId = nat
  type RefId = nat

  /** refcnt_ of every live (not yet deleted) refcounting object */
  type Counts = map<ObjId, Dword>

  /** ptr_ of every live ref<T>; None is nullptr */
  type Refs = map<RefId, Option<ObjId>>

  /** What the dynamic type of an object adds to refcounting; in this core only
      handle_data derives from it. */
  datatype Payload = Plain | HandleObject(fields: HandleData.Fields)

  /** The Win32 calls made by the virtual destructor that `delete this` runs. */
  function DestructorCalls(p: Payload): seq<Call>
  {
    match p
    case Plain => []
    case HandleObject(f) => HandleData.DestructorCalls(f)
  }

  method Destroy(p: Payload, k: Kernel)
    modifies k`calls
    ensures k.calls == old(k.calls) + DestructorCalls(p)
  {
    match p
    case Plain =>
    case HandleObject(f) => HandleData.Destruct(f, k);
  }

  /** ULONG_MAX */
  const MaxCount: Dword := WORD32 - 1

  /** refcnt_.fetch_add(1) + 1 */
  function Inc(c: Dword): (n: Dword)
    ensures c < MaxCount ==> n == c + 1
    ensures c == MaxCount ==> n == 0
  {
    (c + 1) % WORD32
  }

  /** refcnt_.fetch_sub(1) - 1 */
  function Dec(c: Dword): (n: Dword)
    ensures c > 0 ==> n == c - 1
    ensures c == 0 ==> n == MaxCount
  {
    (c - 1) % WORD32
  }

  lemma IncDecInverse(c: Dword)
    ensures Inc(Dec(c)) == c && Dec(Inc(c)) == c
    ensures Dec(c) == 0 <==> c == 1
  {
  }

  /** The counters after decref() on o: o is deleted exactly when its new count is 0. */
  function Released(counts: Counts, o: ObjId): (c: Counts)
    requires o in counts
    ensures o in c <==> Dec(counts[o]) != 0
    ensures o in c ==> c[o] == Dec(counts[o])
    ensures c.Keys <= counts.Keys
    ensures forall x | x in counts && x != o :: x in c && c[x] == counts[x]
  {
    if Dec(counts[o]) == 0 then counts - {o} else counts[o := Dec(counts[o])]
  }

  /** The counters after incref() on o. */
  function Acquired(counts: Counts, o: ObjId): (c: Counts)
    requires o in counts
    ensures c.Keys == counts.Keys
    ensures c[o] == Inc(counts[o])
    ensures forall x | x in counts && x != o :: c[x] == counts[x]
  {
    counts[o := Inc(counts[o])]
  }

  /** `if (ptr_) ptr_->decref()` */
  function ReleaseTarget(counts: Counts, p: Option<ObjId>): Counts
    requires p.Some? ==> p.value in counts
  {
    if p.Some? then Released(counts, p.value) else counts
  }

  /** `if (ptr_) ptr_->incref()` */
  function AcquireTarget(counts: Counts, p: Option<ObjId>): Counts
    requires p.Some? ==> p.value in counts
  {
    if p.Some? then Acquired(counts, p.value) else counts
  }

  // ---------------------------------------------------------------------------
  // The ownership discipline: every live object's count is the number of refs
  // holding it, and no ref holds a deleted object.

  ghost function Owners(refs: Refs, o: ObjId): set<RefId>
  {
    set r | r in refs && refs[r] == Some(o)
  }

  ghost predicate NoDangling(counts: Counts, refs: Refs)
  {
    forall r | r in refs && refs[r].Some? :: refs[r].value in counts
  }

  ghost predicate Balanced(counts: Counts, refs: Refs)
  {
    && NoDangling(counts, refs)
    && forall o | o in counts :: counts[o] as int == |Owners(refs, o)|
  }

  lemma OwnersAfterBind(refs: Refs, r: RefId, p: Option<ObjId>, o: ObjId)
    ensures Owners(refs[r := p], o) == if p == Some(o) then Owners(refs, o) + {r} else Owners(refs, o) - {r}
  {
  }

  lemma OwnersAfterRemove(refs: Refs, r: RefId, o: ObjId)
    ensures Owners(refs - {r}, o) == Owners(refs, o) - {r}
  {
  }

  /** `ref<T> p(new T(...))`: a fresh object with the default count 1, adopted by a fresh ref. */
  lemma AdoptFreshKeepsBalance(counts: Counts, refs: Refs, o: ObjId, r: RefId)
    requires Balanced(counts, refs) && o !in counts && r !in refs
    ensures Balanced(counts[o := 1], refs[r := Some(o)])
  {
    var counts', refs' := counts[o := 1], refs[r := Some(o)];
    forall x | x in counts'
      ensures counts'[x] as int == |Owners(refs', x)|
    {
      OwnersAfterBind(refs, r, Some(o), x);
      if x == o {
        assert Owners(refs, o) == {};
      } else {
        assert Owners(refs', x) == Owners(refs, x);
      }
    }
  }

  /** A ref adopting a null `T*`, such as `ref<T> p(static_cast<T *>(nullptr))`,
      owns nothing. */
  lemma AdoptNullKeepsBalance(counts: Counts, refs: Refs, r: RefId)
    requires Balanced(counts, refs) && r !in refs
    ensures Balanced(counts, refs[r := None])
  {
    forall x | x in counts
      ensures counts[x] as int == |Owners(refs[r := None], x)|
    {
      OwnersAfterBind(refs, r, None, x);
      assert r !in Owners(refs, x);
    }
  }

  /** The converting copy keeps the counts balanced unless the count would wrap. */
  lemma CopyKeepsBalance(counts: Counts, refs: Refs, src: RefId, r: RefId)
    requires Balanced(counts, refs) && src in refs && r !in refs
    requires refs[src].Some? ==> counts[refs[src].value] < MaxCount
    ensures Balanced(AcquireTarget(counts, refs[src]), refs[r := refs[src]])
  {
    var counts', refs' := AcquireTarget(counts, refs[src]), refs[r := refs[src]];
    forall x | x in counts'
      ensures counts'[x] as int == |Owners(refs', x)|
    {
      OwnersAfterBind(refs, r, refs[src], x);
      assert r !in Owners(refs, x);
      if refs[src] != Some(x) {
        assert Owners(refs', x) == Owners(refs, x);
      }
    }
  }

  /** Destroying a ref keeps the counts balanced, and deletes its target exactly
      when it was the target's last owner. */
  lemma DropKeepsBalance(counts: Counts, refs: Refs, r: RefId)
    requires Balanced(counts, refs) && r in refs
    ensures Balanced(ReleaseTarget(counts, refs[r]), refs - {r})
    ensures refs[r].Some? ==>
              (refs[r].value !in ReleaseTarget(counts, refs[r]) <==> Owners(refs, refs[r].value) == {r})
  {
    var counts', refs' := ReleaseTarget(counts, refs[r]), refs - {r};
    forall x | x in counts'
      ensures counts'[x] as int == |Owners(refs', x)|
    {
      OwnersAfterRemove(refs, r, x);
    }
    if refs[r].Some? {
      var t := refs[r].value;
      OwnersAfterRemove(refs, r, t);
      assert r in Owners(refs, t);
      if t !in counts' {
        assert |Owners(refs', t)| == 0;
        assert Owners(refs, t) == Owners(refs', t) + {r};
      }
    }
  }

  /** Between two distinct refs of a balanced state, the decref of the old target
      never deletes the new target, so the incref that follows is safe. */
  lemma AssignTargetSurvives(counts: Counts, refs: Refs, dst: RefId, src: RefId)
    requires Balanced(counts, refs) && dst in refs && src in refs && dst != src
    ensures refs[dst].Some? ==> refs[dst].value in counts
    ensures refs[src].Some? ==> refs[src].value in ReleaseTarget(counts, refs[dst])
  {
    DropKeepsBalance(counts, refs, dst);
    assert src in refs - {dst};
  }

  /** ref::operator= between distinct refs keeps the counts balanced unless the
      new target's count would wrap. */
  lemma AssignKeepsBalance(counts: Counts, refs: Refs, dst: RefId, src: RefId)
    requires Balanced(counts, refs) && dst in refs && src in refs && dst != src
    requires refs[src].Some? ==> counts[refs[src].value] < MaxCount
    ensures refs[src].Some? ==> refs[src].value in ReleaseTarget(counts, refs[dst])
    ensures Balanced(AcquireTarget(ReleaseTarget(counts, refs[dst]), refs[src]), refs[dst := refs[src]])
  {
    AssignTargetSurvives(counts, refs, dst, src);
    var counts1, refs1 := ReleaseTarget(counts, refs[dst]), refs - {dst};
    DropKeepsBalance(counts, refs, dst);
    assert refs1[src] == refs[src];
    CopyKeepsBalance(counts1, refs1, src, dst);
    assert refs1[dst := refs1[src]] == refs[dst := refs[src]];
  }

  // ---------------------------------------------------------------------------
  // The heap of refcounting objects and ref<T> instances.

  class Heap {
    var counts: Counts
    /** The payload of every object ever created, deleted or not. */
    var payloads: map<ObjId, Payload>
    /** The objects deleted so far, in order. */
    var destroyed: seq<ObjId>
    var refs: Refs
    var nextObj: ObjId
    var nextRef: RefId

    /** Identities are never reused, and each object is deleted at most once. */
    ghost predicate Valid()
      reads this
    {
      && counts.Keys <= payloads.Keys
      && (forall o | o in payloads :: o < nextObj)
      && (forall r | r in refs :: r < nextRef)
      && (forall i | 0 <= i < |destroyed| :: destroyed[i] in payloads && destroyed[i] !in counts)
      && (forall i, j | 0 <= i < j < |destroyed| :: destroyed[i] != destroyed[j])
    }

    ghost predicate Owned()
      reads this
    {
      Valid() && Balanced(counts, refs)
    }

    constructor ()
      ensures Owned()
      ensures counts == map[] && payloads == map[] && destroyed == [] && refs == map[]
    {
      counts, payloads, destroyed, refs := map[], map[], [], map[];
      nextObj, nextRef := 0, 0;
    }

    /** `new T(...)` for a T deriving from refcounting(initial = 1). */
    method NewObject(p: Payload, initial: Dword := 1) returns (o: ObjId)
      requires Valid()
      modifies this`counts, this`payloads, this`nextObj
      ensures Valid()
      ensures o !in old(payloads)
      ensures counts == old(counts)[o := initial] && payloads == old(payloads)[o := p]
    {
      o := nextObj;
      nextObj := nextObj + 1;
      counts := counts[o := initial];
      payloads := payloads[o := p];
    }

    /** refcounting::incref() */
    method Incref(o: ObjId) returns (n: Dword)
      requires Valid() && o in counts
      modifies this`counts
      ensures Valid()
      ensures counts == Acquired(old(counts), o)
      ensures n == counts[o] == Inc(old(counts[o]))
    {
      n := Inc(counts[o]);
      counts := counts[o := n];
    }

    /** refcounting::decref(): `delete this` when the new count is 0, which runs
        the payload's destructor. */
    method Decref(o: ObjId, k: Kernel) returns (n: Dword)
      requires Valid() && o in counts
      modifies this`counts, this`destroyed, k`calls
      ensures Valid()
      ensures n == Dec(old(counts[o]))
      ensures counts == Released(old(counts), o)
      ensures destroyed == old(destroyed) + (if n == 0 then [o] else [])
      ensures k.calls == old(k.calls) + (if n == 0 then DestructorCalls(payloads[o]) else [])
    {
      n := Dec(counts[o]);
      if n == 0 {
        Destroy(payloads[o], k);
        counts := counts - {o};
        destroyed := destroyed + [o];
      } else {
        counts := counts[o := n];
      }
    }

    /** explicit ref(Y *ptr): adopts ptr without touching its count. A ref adopting
        a null `T*` keeps the counts balanced; a non-null one does when ptr is a
        fresh object with count 1 (AdoptFreshKeepsBalance). */
    method Adopt(p: Option<ObjId>) returns (r: RefId)
      requires Valid()
      modifies this`refs, this`nextRef
      ensures Valid()
      ensures r !in old(refs) && refs == old(refs)[r := p]
      ensures old(Owned()) && p.None? ==> Owned()
    {
      ghost var refs0 := refs;
      r := nextRef;
      nextRef := nextRef + 1;
      refs := refs[r := p];
      if Balanced(counts, refs0) && p.None? {
        AdoptNullKeepsBalance(counts, refs0, r);
      }
    }

    /** template ref(const ref<Y>& that): shares that's pointer and increfs it. */
    method Copy(src: RefId) returns (r: RefId)
      requires Valid() && src in refs && (refs[src].Some? ==> refs[src].value in counts)
      modifies this`refs, this`nextRef, this`counts
      ensures Valid()
      ensures r !in old(refs) && refs == old(refs)[r := old(refs[src])]
      ensures counts == AcquireTarget(old(counts), old(refs[src]))
      ensures old(Owned()) && (old(refs[src]).Some? ==> old(counts[refs[src].value]) < MaxCount) ==> Owned()
    {
      ghost var counts0, refs0 := counts, refs;
      r := nextRef;
      nextRef := nextRef + 1;
      refs := refs[r := refs[src]];
      if refs[r].Some? {
        var n := Incref(refs[r].value);
      }
      if Balanced(counts0, refs0) && (refs0[src].Some? ==> counts0[refs0[src].value] < MaxCount) {
        CopyKeepsBalance(counts0, refs0, src, r);
      }
    }

    /** ~ref(): `if (ptr_) ptr_->decref()`, after which the ref no longer exists. */
    method Drop(r: RefId, k: Kernel)
      requires Valid() && r in refs && (refs[r].Some? ==> refs[r].value in counts)
      modifies this`refs, this`counts, this`destroyed, k`calls
      ensures Valid()
      ensures refs == old(refs) - {r}
      ensures counts == ReleaseTarget(old(counts), old(refs[r]))
      ensures old(refs[r]).Some? && old(refs[r]).value !in counts ==>
                && destroyed == old(destroyed) + [old(refs[r]).value]
                && k.calls == old(k.calls) + DestructorCalls(payloads[old(refs[r]).value])
      ensures old(refs[r]).None? || old(refs[r]).value in counts ==>
                destroyed == old(destroyed) && k.calls == old(k.calls)
      ensures old(Owned()) ==> Owned()
      ensures old(Owned()) && old(refs[r]).Some? ==>
                (old(refs[r]).value !in counts <==> Owners(old(refs), old(refs[r]).value) == {r})
    {
      ghost var counts0, refs0 := counts, refs;
      if refs[r].Some? {
        var n := Decref(refs[r].value, k);
      }
      refs := refs - {r};
      if Balanced(counts0, refs0) {
        DropKeepsBalance(counts0, refs0, r);
      }
    }

    /** ref::operator->(): the held pointer; no count changes. */
    method Arrow(r: RefId) returns (p: Option<ObjId>)
      requires r in refs
      ensures p == refs[r]
    {
      p := refs[r];
    }

    /** template ref::operator=(const ref<Y>& that): decref the old target, take
        that's pointer, incref it. The new target must survive the decref. */
    method Assign(dst: RefId, src: RefId, k: Kernel)
      requires Valid() && dst in refs && src in refs
      requires refs[dst].Some? ==> refs[dst].value in counts
      requires refs[src].Some? ==> refs[src].value in ReleaseTarget(counts, refs[dst])
      modifies this`refs, this`counts, this`destroyed, k`calls
      ensures Valid()
      ensures refs == old(refs)[dst := old(refs[src])]
      ensures counts == AcquireTarget(ReleaseTarget(old(counts), old(refs[dst])), old(refs[src]))
      ensures old(refs[dst]).Some? && old(refs[dst]).value !in counts ==>
                && destroyed == old(destroyed) + [old(refs[dst]).value]
                && k.calls == old(k.calls) + DestructorCalls(payloads[old(refs[dst]).value])
      ensures old(refs[dst]).None? || old(refs[dst]).value in counts ==>
                destroyed == old(destroyed) && k.calls == old(k.calls)
      ensures old(refs[dst]).Some? && old(refs[src]).Some? && old(refs[dst]) != old(refs[src]) ==>
                var a, b := old(refs[dst]).value, old(refs[src]).value;
                && counts[b] == Inc(old(counts[b]))
                && (a in counts ==> counts[a] == Dec(old(counts[a])))
                && forall x | x in old(counts) && x != a && x != b :: x in counts && counts[x] == old(counts[x])
      ensures (old(Owned()) && dst != src && (old(refs[src]).Some? ==> old(counts[refs[src].value]) < MaxCount))
                ==> Owned()
    {
      ghost var counts0, refs0 := counts, refs;
      if refs[dst].Some? {
        var n := Decref(refs[dst].value, k);
      }
      refs := refs[dst := refs[src]];
      if refs[dst].Some? {
        var n := Incref(refs[dst].value);
      }
      if Balanced(counts0, refs0) && dst != src && (refs0[src].Some? ==> counts0[refs0[src].value] < MaxCount) {
        AssignKeepsBalance(counts0, refs0, dst, src);
      }
    }

    /** The implicitly declared copy constructor ref(const ref&): ptr_ is copied
        member by member and no count changes. */
    method CopyMemberwise(src: RefId) returns (r: RefId)
      requires Valid() && src in refs
      modifies this`refs, this`nextRef
      ensures Valid()
      ensures r !in old(refs) && refs == old(refs)[r := old(refs[src])]
    {
      r := nextRef;
      nextRef := nextRef + 1;
      refs := refs[r := refs[src]];
    }

    /** The implicitly declared copy assignment ref::operator=(const ref&): ptr_
        is overwritten and no count changes. */
    method AssignMemberwise(dst: RefId, src: RefId)
      requires Valid() && dst in refs && src in refs
      modifies this`refs
      ensures Valid()
      ensures refs == old(refs)[dst := old(refs[src])]
    {
      refs := refs[dst := refs[src]];
    }
  }

  /** A member-wise copy of the only ref to an object leaves its count at 1 with two
      owners; destroying the copy deletes the object while the original still points
      at it, so the original's destructor would decref a deleted object. */
  lemma MemberwiseCopyUnbalances()
    ensures var counts: Counts, refs: Refs := map[0 := 1], map[0 := Some(0)];
            var copied := refs[1 := refs[0]];
            && Balanced(counts, refs)
            && !Balanced(counts, copied)
            && 0 !in ReleaseTarget(counts, copied[1])
            && !NoDangling(ReleaseTarget(counts, copied[1]), copied - {1})
  {
    var counts: Counts, refs: Refs := map[0 := 1], map[0 := Some(0)];
    var copied := refs[1 := refs[0]];
    assert Owners(refs, 0) == {0};
    assert Owners(copied, 0) == {0, 1};
    assert 0 in copied - {1};
  }

  /** A member-wise assignment between the only refs of two objects leaks the old
      target (count 1, no owner) and leaves the new one with count 1 and two owners. */
  lemma MemberwiseAssignUnbalances()
    ensures var counts: Counts, refs: Refs := map[0 := 1, 1 := 1], map[0 := Some(0), 1 := Some(1)];
            var afterAssign := refs[0 := refs[1]];
            && Balanced(counts, refs)
            && |Owners(afterAssign, 0)| == 0 && counts[0] == 1
            && |Owners(afterAssign, 1)| == 2 && counts[1] == 1
  {
    var counts: Counts, refs: Refs := map[0 := 1, 1 := 1], map[0 := Some(0), 1 := Some(1)];
    var afterAssign := refs[0 := refs[1]];
    assert Owners(refs, 0) == {0};
    assert Owners(refs, 1) == {1};
    assert Owners(afterAssign, 0) == {};
    assert Owners(afterAssign, 1) == {0, 1};
  }
}
