/** Whole runs of the virtual memory manager, against a flat map from virtual pages to frames. */
module PageRuns {
  import opened Wrappers
  import opened PageEntries
  import opened PageTables
  import opened PageOwners
  import opened PageSteps
  import opened PageTeardown
  import opened PageSpaces
  import opened VirtualMemory

  /** The page tables as a flat map: what each root maps in its own half, and which kernel slots each
      process shares. */
  datatype Flat = Flat(pages: (nat, Va) -> Option<Mapping>, held: Held)

  ghost function Lookup(flat: Flat, kernel: nat, r: nat, va: Va): Option<Mapping>
  {
    if r == kernel || va.i0 < KERNEL_START then flat.pages(r, va)
    else if r in flat.held && va.i0 in flat.held[r] then flat.pages(kernel, va)
    else None
  }

  ghost predicate Refines(mem: Mem, loc: Places, kernel: nat, flat: Flat)
  {
    forall r, va | IsRoot(loc, r) && VaOk(va) :: View(mem, 0, r, va) == Lookup(flat, kernel, r, va)
  }

  datatype Event = Stay | Set(root: nat, va: Va, m: Option<Mapping>) | New(root: nat, slots: set<nat>) | Gone(root: nat)

  function Happen(flat: Flat, e: Event): Flat
  {
    match e
    case Stay => flat
    case Set(root, va, m) => flat.(pages := (r: nat, v: Va) => if r == root && v == va then m else flat.pages(r, v))
    case New(root, slots) => Flat((r: nat, v: Va) => if r == root then None
      else flat.pages(r, v), flat.held[root := slots])
    case Gone(root) => flat.(held := flat.held - {root})
  }

  function Replay(flat: Flat, log: seq<Event>): Flat
  {
    if log == [] then flat else Happen(Replay(flat, log[..|log| - 1]), log[|log| - 1])
  }

  /** A page write in the tables is one update of the flat map. */
  lemma RefinesSet(mem: Mem, mem': Mem, loc: Places, loc': Places, kernel: nat, flat: Flat, root: nat, va: Va,
                   m: Option<Mapping>)
    requires Refines(mem, loc, kernel, flat) && OnePage(kernel, loc, flat.held, mem, mem', root, va, m)
    requires root == kernel || va.i0 < KERNEL_START
    requires forall r :: IsRoot(loc', r) <==> IsRoot(loc, r)
    ensures Refines(mem', loc', kernel, Happen(flat, Set(root, va, m)))
  {
  }

  /** A new space adds an empty lower half and the kernel's slots of the moment. */
  lemma RefinesNew(mem: Mem, mem': Mem, loc: Places, kernel: nat, flat: Flat, f: nat, slots: set<nat>)
    requires Refines(mem, loc, kernel, flat) && SameViews(mem, loc, mem', loc[f := Place(f, P0)])
             && NewViews(mem', kernel, f, slots)
    requires f !in loc && IsRoot(loc, kernel) && forall i | i in slots :: i >= KERNEL_START
    ensures Refines(mem', loc[f := Place(f, P0)], kernel, Happen(flat, New(f, slots)))
  {
    hide View;
    var flat', loc' := Happen(flat, New(f, slots)), loc[f := Place(f, P0)];
    forall r, v | IsRoot(loc', r) && VaOk(v) ensures View(mem', 0, r, v) == Lookup(flat', kernel, r, v) {
      assert Level(loc[kernel].path) == 0;
      assert View(mem, 0, kernel, v) == Lookup(flat, kernel, kernel, v);
      if r != f {
        assert IsRoot(loc, r) && Level(loc[r].path) == 0;
        assert View(mem, 0, r, v) == Lookup(flat, kernel, r, v);
      }
    }
  }

  lemma RefinesGone(mem: Mem, loc: Places, kernel: nat, flat: Flat, s: nat)
    requires Refines(mem, loc, kernel, flat) && s != kernel
    ensures Refines(mem, Others(loc, s), kernel, Happen(flat, Gone(s)))
  {
  }

  /** Spaces are the roots that hold kernel slots. */
  lemma SameRoots(vm: AddressSpaces, mem: Mem, loc: Places, at: Tables, leaf: Places, free: set<nat>)
    requires vm.Valid() && VmOk(mem, loc, at, leaf, vm.held, vm.kernel, free)
    ensures forall r :: IsRoot(vm.loc, r) <==> IsRoot(loc, r)
  {
  }

  // -------------------------------------------------------------------- runs

  ghost predicate Models(vm: AddressSpaces, flat: Flat)
    reads vm
  {
    flat.held == vm.held && Refines(vm.mem, vm.loc, vm.kernel, flat)
  }

  datatype Op =
    | MapKernel(virt: nat, frame: nat, flags: Attrs)
    | UnmapKernel(virt: nat)
    | ProtectKernel(virt: nat, flags: Attrs)
    | CreateSpace
    | MapUser(s: nat, virt: nat, flags: Attrs)
    | UnmapUser(s: nat, virt: nat)
    | ProtectUser(s: nat, virt: nat, flags: Attrs)
    | DropSpace(s: nat)

  /** What `op` does to the flat map; `free` are the free frames and `slots` the kernel slots in use. */
  ghost predicate Does(flat: Flat, kernel: nat, free: set<nat>, slots: set<nat>, op: Op, e: Event)
  {
    match op
    case MapKernel(virt, frame, flags) => e == Set(kernel, PageOf(virt), Some(Mapping(frame, flags)))
    case UnmapKernel(virt) => e == Set(kernel, PageOf(virt), None)
    case ProtectKernel(virt, flags) =>
      e == Set(kernel, PageOf(virt), Protected(flat.pages(kernel, PageOf(virt)), flags, KernelFlags(flags)))
    case CreateSpace => if free == {} then e == Stay else e.New? && e.root in free && e.slots == slots
    case MapUser(s, virt, flags) =>
      && e.Set? && e.root == s && e.va == PageOf(virt)
      && e.m.Some? && e.m.value.frame in free && e.m.value.attrs == flags
    case UnmapUser(s, virt) => e == Set(s, PageOf(virt), None)
    case ProtectUser(s, virt, flags) =>
      e == if virt >= USER_SPACE_END then Stay
           else Set(s, PageOf(virt), Protected(flat.pages(s, PageOf(virt)), flags, UserFlags(flags)))
    case DropSpace(s) => e == Gone(s)
  }

  function Protected(was: Option<Mapping>, flags: Attrs, known: bool): Option<Mapping>
  {
    if was.Some? && known then Some(Mapping(was.value.frame, flags)) else was
  }

  /** What the source refuses with a panic: a space that does not exist, an address outside the user half,
      a page that is mapped already, flags it does not know, or too few frames for the tables it has to make. */
  ghost predicate Refused(vm: AddressSpaces, op: Op)
    reads vm
  {
    match op
    case MapKernel(virt, _, _) => |vm.free| < Lacking(vm.mem, vm.kernel, PageOf(virt))
    case UnmapKernel(virt) => |vm.free| < Splits(vm.mem, vm.kernel, PageOf(virt))
    case ProtectKernel(virt, flags) => KernelFlags(flags) && |vm.free| < Splits(vm.mem, vm.kernel, PageOf(virt))
    case CreateSpace => false
    case MapUser(s, virt, flags) =>
      || s !in vm.held || virt >= USER_SPACE_END || virt % 0x1000 != 0 || !UserFlags(flags)
         || vm.Seen(s, PageOf(virt)).Some?
      || |vm.free| < 1 + Lacking(vm.mem, s, PageOf(virt))
    case UnmapUser(s, virt) => s !in vm.held || virt >= USER_SPACE_END
    case ProtectUser(s, _, _) => s !in vm.held
    case DropSpace(s) => s !in vm.held
  }

  /** The page written by `op`, in the flat map. */
  lemma SeenFlat(vm: AddressSpaces, flat: Flat, root: nat, va: Va)
    requires vm.Valid() && Models(vm, flat) && IsRoot(vm.loc, root) && VaOk(va)
             && (root == vm.kernel || va.i0 < KERNEL_START)
    ensures vm.Seen(root, va) == flat.pages(root, va)
  {
  }

  method RunMapKernel(vm: AddressSpaces, op: Op, ghost flat: Flat) returns (ghost e: Event)
    requires vm.Valid() && Models(vm, flat) && !Refused(vm, op) && op.MapKernel?
    modifies vm
    ensures vm.Valid() && Models(vm, Happen(flat, e)) && vm.Frames() == old(vm.Frames()) && vm.held == old(vm.held)
    ensures Does(flat, vm.kernel, old(vm.free), {}, op, e)
  {
    hide VmOk, Refines, OnePage, Lacking, TablePlaces, Enough, Made;
    RootIsRoot(vm.mem, vm.loc, vm.at, vm.leaf, vm.held, vm.kernel, vm.free);
    LackingEnough(vm.mem, vm.loc, vm.at, vm.leaf, vm.held, vm.kernel, vm.free, vm.kernel, PageOf(op.virt));
    vm.MapPage(op.virt, op.frame, op.flags);
    e := Set(vm.kernel, PageOf(op.virt), Some(Mapping(op.frame, op.flags)));
    SameRoots(vm, old(vm.mem), old(vm.loc), old(vm.at), old(vm.leaf), old(vm.free));
    RefinesSet(old(vm.mem), vm.mem, old(vm.loc), vm.loc, vm.kernel, flat, vm.kernel, e.va, e.m);
  }

  method RunUnmapKernel(vm: AddressSpaces, op: Op, ghost flat: Flat) returns (ghost e: Event)
    requires vm.Valid() && Models(vm, flat) && !Refused(vm, op) && op.UnmapKernel?
    modifies vm
    ensures vm.Valid() && Models(vm, Happen(flat, e)) && vm.Frames() == old(vm.Frames()) && vm.held == old(vm.held)
    ensures Does(flat, vm.kernel, old(vm.free), {}, op, e)
  {
    hide VmOk, Refines, OnePage, Splits;
    var _ := vm.UnmapPage(op.virt);
    e := Set(vm.kernel, PageOf(op.virt), None);
    SameRoots(vm, old(vm.mem), old(vm.loc), old(vm.at), old(vm.leaf), old(vm.free));
    RefinesSet(old(vm.mem), vm.mem, old(vm.loc), vm.loc, vm.kernel, flat, vm.kernel, e.va, None);
  }

  method RunProtectKernel(vm: AddressSpaces, op: Op, ghost flat: Flat) returns (ghost e: Event)
    requires vm.Valid() && Models(vm, flat) && !Refused(vm, op) && op.ProtectKernel?
    modifies vm
    ensures vm.Valid() && Models(vm, Happen(flat, e)) && vm.Frames() == old(vm.Frames()) && vm.held == old(vm.held)
    ensures Does(flat, vm.kernel, old(vm.free), {}, op, e)
  {
    hide VmOk, Refines, OnePage, View, Splits;
    RootIsRoot(vm.mem, vm.loc, vm.at, vm.leaf, vm.held, vm.kernel, vm.free);
    SeenFlat(vm, flat, vm.kernel, PageOf(op.virt));
    var _ := vm.ProtectPage(op.virt, op.flags);
    e := Set(vm.kernel, PageOf(op.virt), Protected(old(vm.Seen(vm.kernel, PageOf(op.virt))), op.flags,
      KernelFlags(op.flags)));
    SameRoots(vm, old(vm.mem), old(vm.loc), old(vm.at), old(vm.leaf), old(vm.free));
    RefinesSet(old(vm.mem), vm.mem, old(vm.loc), vm.loc, vm.kernel, flat, vm.kernel, e.va, e.m);
  }

  /** Take a free frame for a new page of a process and map it. */
  method TakeAndMap(vm: AddressSpaces, s: nat, virt: nat, flags: Attrs) returns (f: nat)
    requires vm.Valid() && s in vm.held && virt < USER_SPACE_END && virt % 0x1000 == 0 && UserFlags(flags)
    requires vm.Seen(s, PageOf(virt)).None? && 1 + Lacking(vm.mem, s, PageOf(virt)) <= |vm.free|
    modifies vm
    ensures vm.Valid() && f in old(vm.free) && vm.Frames() == old(vm.Frames()) && vm.held == old(vm.held)
    ensures OnePage(vm.kernel, old(vm.loc), vm.held, old(vm.mem), vm.mem, s, PageOf(virt), Some(Mapping(f, flags)))
  {
    hide VmOk, OnePage, Lacking, TablePlaces, Made, Enough, View, PageOf, Kept, AllFrames;
    SpaceIsRoot(vm.mem, vm.loc, vm.at, vm.leaf, vm.held, vm.kernel, vm.free, s);
    var r := vm.AllocFrame();
    f := r.value;
    UserPage(virt);
    LackingEnough(vm.mem, vm.loc, vm.at, vm.leaf, vm.held, vm.kernel, vm.free, s, PageOf(virt));
    vm.Map(s, virt, f, flags);
  }

  method RunMap(vm: AddressSpaces, op: Op, ghost flat: Flat) returns (ghost e: Event)
    requires vm.Valid() && Models(vm, flat) && !Refused(vm, op) && op.MapUser?
    modifies vm
    ensures vm.Valid() && Models(vm, Happen(flat, e)) && vm.Frames() == old(vm.Frames()) && vm.held == old(vm.held)
    ensures Does(flat, vm.kernel, old(vm.free), {}, op, e)
  {
    hide VmOk, Refines, OnePage, Lacking, Does, Refused, View;
    MapAllowed(vm, op);
    UserPage(op.virt);
    var f := TakeAndMap(vm, op.s, op.virt, op.flags);
    e := Set(op.s, PageOf(op.virt), Some(Mapping(f, op.flags)));
    DoesMap(flat, vm.kernel, old(vm.free), op, f);
    SameRoots(vm, old(vm.mem), old(vm.loc), old(vm.at), old(vm.leaf), old(vm.free));
    RefinesSet(old(vm.mem), vm.mem, old(vm.loc), vm.loc, vm.kernel, flat, op.s, e.va, e.m);
  }

  lemma MapAllowed(vm: AddressSpaces, op: Op)
    requires op.MapUser? && !Refused(vm, op)
    ensures op.s in vm.held && op.virt < USER_SPACE_END && op.virt % 0x1000 == 0 && UserFlags(op.flags)
    ensures vm.Seen(op.s, PageOf(op.virt)).None? && 1 + Lacking(vm.mem, op.s, PageOf(op.virt)) <= |vm.free|
  {
  }

  lemma DoesMap(flat: Flat, kernel: nat, free: set<nat>, op: Op, f: nat)
    requires op.MapUser? && f in free
    ensures Does(flat, kernel, free, {}, op, Set(op.s, PageOf(op.virt), Some(Mapping(f, op.flags))))
  {
  }

  /** Unmap a page of a process and give its frame back. */
  method RunUnmap(vm: AddressSpaces, op: Op, ghost flat: Flat) returns (ghost e: Event)
    requires vm.Valid() && Models(vm, flat) && !Refused(vm, op) && op.UnmapUser?
    modifies vm
    ensures vm.Valid() && Models(vm, Happen(flat, e)) && vm.Frames() == old(vm.Frames()) && vm.held == old(vm.held)
    ensures Does(flat, vm.kernel, old(vm.free), {}, op, e)
  {
    hide VmOk, Refines, OnePage;
    var s, virt := op.s, op.virt;
    SpaceIsRoot(vm.mem, vm.loc, vm.at, vm.leaf, vm.held, vm.kernel, vm.free, s);
    UserPage(virt);
    var r := vm.Unmap(s, virt);
    e := Set(s, PageOf(virt), None);
    SameRoots(vm, old(vm.mem), old(vm.loc), old(vm.at), old(vm.leaf), old(vm.free));
    RefinesSet(old(vm.mem), vm.mem, old(vm.loc), vm.loc, vm.kernel, flat, s, PageOf(virt), None);
    if r.Some? {
      Unowned(old(vm.mem), old(vm.loc), old(vm.at), old(vm.leaf), vm.held, vm.kernel, old(vm.free), r.value);
      ReturnFrame(vm.mem, vm.loc, vm.at, vm.leaf, vm.held, vm.kernel, vm.free, r.value);
      vm.FreeFrame(r.value);
    }
  }

  method RunProtect(vm: AddressSpaces, op: Op, ghost flat: Flat) returns (ghost e: Event)
    requires vm.Valid() && Models(vm, flat) && !Refused(vm, op) && op.ProtectUser?
    modifies vm
    ensures vm.Valid() && Models(vm, Happen(flat, e)) && vm.Frames() == old(vm.Frames()) && vm.held == old(vm.held)
    ensures Does(flat, vm.kernel, old(vm.free), {}, op, e)
  {
    hide VmOk, Refines, OnePage, View;
    var s, virt := op.s, op.virt;
    SpaceIsRoot(vm.mem, vm.loc, vm.at, vm.leaf, vm.held, vm.kernel, vm.free, s);
    if virt >= USER_SPACE_END {
      var _ := vm.Protect(s, virt, op.flags);
      return Stay;
    }
    UserPage(virt);
    SeenFlat(vm, flat, s, PageOf(virt));
    var _ := vm.Protect(s, virt, op.flags);
    e := Set(s, PageOf(virt), Protected(old(vm.Seen(s, PageOf(virt))), op.flags, UserFlags(op.flags)));
    SameRoots(vm, old(vm.mem), old(vm.loc), old(vm.at), old(vm.leaf), old(vm.free));
    RefinesSet(old(vm.mem), vm.mem, old(vm.loc), vm.loc, vm.kernel, flat, s, e.va, e.m);
  }

  method RunCreate(vm: AddressSpaces, ghost flat: Flat) returns (r: Option<nat>, ghost e: Event)
    requires vm.Valid() && Models(vm, flat)
    modifies vm
    ensures vm.Valid() && Models(vm, Happen(flat, e)) && vm.Frames() == old(vm.Frames())
    ensures vm.held.Keys == if r.Some? then old(vm.held).Keys + {r.value} else old(vm.held).Keys
    ensures Does(flat, vm.kernel, old(vm.free), Slots(old(vm.mem), vm.kernel), CreateSpace, e)
  {
    hide VmOk, Refines, SameViews, NewViews;
    r := vm.Create();
    if r.None? { return None, Stay; }
    e := New(r.value, Slots(old(vm.mem), vm.kernel));
    RootIsRoot(old(vm.mem), old(vm.loc), old(vm.at), vm.leaf, old(vm.held), vm.kernel, old(vm.free));
    FreeIsNot(old(vm.mem), old(vm.loc), old(vm.at), vm.leaf, old(vm.held), vm.kernel, old(vm.free), vm.kernel, r.value);
    RefinesNew(old(vm.mem), vm.mem, old(vm.loc), vm.kernel, flat, r.value, Slots(old(vm.mem), vm.kernel));
  }

  method RunDrop(vm: AddressSpaces, s: nat, ghost flat: Flat) returns (ghost e: Event)
    requires vm.Valid() && Models(vm, flat) && s in vm.held
    modifies vm
    ensures vm.Valid() && Models(vm, Happen(flat, e)) && vm.Frames() == old(vm.Frames())
            && vm.held == old(vm.held) - {s}
    ensures e == Gone(s)
  {
    hide VmOk, Refines;
    SpaceIsRoot(vm.mem, vm.loc, vm.at, vm.leaf, vm.held, vm.kernel, vm.free, s);
    RefinesGone(vm.mem, vm.loc, vm.kernel, flat, s);
    vm.Drop(s);
    e := Gone(s);
  }

  /** The source's own tests for a refusal; `live` are the spaces that exist. */
  method IsRefused(vm: AddressSpaces, op: Op, live: set<nat>) returns (refused: bool)
    requires vm.Valid() && live == vm.held.Keys
    ensures refused <==> Refused(vm, op)
  {
    hide VmOk, View, Lacking, Splits;
    match op {
      case MapKernel(virt, _, _) => return |vm.free| < Lacking(vm.mem, vm.kernel, PageOf(virt));
      case UnmapKernel(virt) => return |vm.free| < Splits(vm.mem, vm.kernel, PageOf(virt));
      case ProtectKernel(virt, flags) => return KernelFlags(flags)
        && |vm.free| < Splits(vm.mem, vm.kernel, PageOf(virt));
      case MapUser(s, virt, flags) =>
        if s !in live || virt >= USER_SPACE_END || virt % 0x1000 != 0 || !UserFlags(flags) { return true; }
        SpaceIsRoot(vm.mem, vm.loc, vm.at, vm.leaf, vm.held, vm.kernel, vm.free, s);
        var phys := vm.Translate(s, virt);
        return phys.Some? || |vm.free| < 1 + Lacking(vm.mem, s, PageOf(virt));
      case UnmapUser(s, virt) => return s !in live || virt >= USER_SPACE_END;
      case ProtectUser(s, _, _) => return s !in live;
      case DropSpace(s) => return s !in live;
      case CreateSpace => return false;
    }
  }

  method RunOne(vm: AddressSpaces, op: Op, live: set<nat>, ghost flat: Flat) returns (live': set<nat>, ghost e: Event)
    requires vm.Valid() && Models(vm, flat) && !Refused(vm, op) && live == vm.held.Keys
    modifies vm
    ensures vm.Valid() && Models(vm, Happen(flat, e)) && vm.Frames() == old(vm.Frames()) && live' == vm.held.Keys
    ensures Does(flat, vm.kernel, old(vm.free), Slots(old(vm.mem), vm.kernel), op, e)
  {
    hide VmOk, Refines, View, Lacking, Splits, Happen, Slots;
    live' := live;
    match op {
      case MapKernel(_, _, _) => e := RunMapKernel(vm, op, flat);
      case UnmapKernel(_) => e := RunUnmapKernel(vm, op, flat);
      case ProtectKernel(_, _) => e := RunProtectKernel(vm, op, flat);
      case CreateSpace =>
        var root;
        root, e := RunCreate(vm, flat);
        if root.Some? { live' := live + {root.value}; }
      case MapUser(_, _, _) => e := RunMap(vm, op, flat);
      case UnmapUser(_, _) => e := RunUnmap(vm, op, flat);
      case ProtectUser(_, _, _) => e := RunProtect(vm, op, flat);
      case DropSpace(s) =>
        e := RunDrop(vm, s, flat);
        live' := live - {s};
    }
  }

  /** The flat map and frame sets before each operation of a run. */
  datatype Moment = Moment(flat: Flat, free: set<nat>, slots: set<nat>)

  /** `log` is what the operations do, one event each, starting from the flat map `flat`. */
  ghost predicate Logged(flat: Flat, kernel: nat, ops: seq<Op>, log: seq<Event>, at: seq<Moment>)
  {
    && |log| == |at| <= |ops|
    && (forall i | 0 <= i < |log| ::
         at[i].flat == Replay(flat, log[..i])
         && Does(at[i].flat, kernel, at[i].free, at[i].slots, ops[i], log[i]))
  }

  /** Any run, up to the first refused operation: the tables refine the flat map that the same operations
      give, and no frame is lost or duplicated. */
  method Run(vm: AddressSpaces, ops: seq<Op>, spaces: set<nat>, ghost flat: Flat)
    returns (live: set<nat>, ghost log: seq<Event>, ghost moments: seq<Moment>)
    requires vm.Valid() && Models(vm, flat) && spaces == vm.held.Keys
    modifies vm
    ensures vm.Valid() && vm.Frames() == old(vm.Frames()) && live == vm.held.Keys
    ensures Logged(flat, vm.kernel, ops, log, moments) && Models(vm, Replay(flat, log))
    ensures |log| < |ops| ==> Refused(vm, ops[|log|])
  {
    hide VmOk, Refines, Happen, Does;
    live, log, moments := spaces, [], [];
    var i := 0;
    while i < |ops|
      invariant i == |log| <= |ops|
      invariant vm.Valid() && vm.Frames() == old(vm.Frames()) && live == vm.held.Keys
      invariant Logged(flat, vm.kernel, ops, log, moments) && Models(vm, Replay(flat, log))
    {
      var refused := IsRefused(vm, ops[i], live);
      if refused { return; }
      ghost var now := Moment(Replay(flat, log), vm.free, Slots(vm.mem, vm.kernel));
      ghost var e;
      live, e := RunOne(vm, ops[i], live, now.flat);
      LogOne(flat, vm.kernel, ops, log, moments, e, now);
      log, moments := log + [e], moments + [now];
      i := i + 1;
    }
  }

  lemma LogOne(flat: Flat, kernel: nat, ops: seq<Op>, log: seq<Event>, at: seq<Moment>, e: Event, now: Moment)
    requires Logged(flat, kernel, ops, log, at) && |log| < |ops|
    requires now.flat == Replay(flat, log) && Does(now.flat, kernel, now.free, now.slots, ops[|log|], e)
    ensures Logged(flat, kernel, ops, log + [e], at + [now]) && Replay(flat, log + [e]) == Happen(Replay(flat, log), e)
  {
    hide Does, Happen;
    assert (log + [e])[..|log|] == log;
    forall i | 0 <= i < |log| + 1
      ensures (at + [now])[i].flat == Replay(flat, (log + [e])[..i])
      ensures Does((at + [now])[i].flat, kernel, (at + [now])[i].free, (at + [now])[i].slots, ops[i], (log + [e])[i])
    {
      if i < |log| {
        assert (log + [e])[..i] == log[..i];
        assert at[i].flat == Replay(flat, log[..i]);
      }
    }
  }

  /** In every state of every run, a live space translates kernel addresses in the slots it got when it was
      created exactly as the kernel does. */
  lemma LiveKernelHalf(vm: AddressSpaces, s: nat, va: Va)
    requires vm.Valid() && s in vm.held && VaOk(va) && va.i0 >= KERNEL_START && va.i0 in vm.held[s]
    ensures vm.Seen(s, va) == vm.Seen(vm.kernel, va)
  {
  }
}
