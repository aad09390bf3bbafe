/**
 * Reusable outputs of the Module SDK (strategy_devkit/module_sdk.py): generation
 * handles, their confirmation, and the invocation path that skips the port check.
 */
module ReusableOutputs {
  import opened Options

  type Slot = string

  /** What update() returned or registered: a dict of port values, or something else. */
  datatype Candidate = NotADict | Dict(ports: map<string, string>)

  /** A declared output port: whether it is required. */
  type Ports = map<string, bool>

  /** The output check of _invoke: no undeclared port, no missing required one. */
  predicate Passes(c: Candidate, declared: Ports) {
    && c.Dict?
    && c.ports.Keys <= declared.Keys
    && forall p | p in declared && declared[p] :: p in c.ports
  }

  /** The object a module registers; it is kept by reference, and the module may go on changing it. */
  class Outputs {
    var content: Candidate

    constructor (content: Candidate)
      ensures this.content == content
    {
      this.content := content;
    }
  }

  /** _ReusableModuleOutputs; only `registered` changes. */
  class Handle {
    const owner: Module
    const slot: Slot
    const epoch: nat
    const generation: nat
    const candidate: Outputs
    var registered: bool

    constructor (owner: Module, slot: Slot, epoch: nat, generation: nat, candidate: Outputs)
      ensures this.owner == owner && this.slot == slot && this.epoch == epoch && this.generation == generation
      ensures this.candidate == candidate && !registered
    {
      this.owner, this.slot, this.epoch, this.generation := owner, slot, epoch, generation;
      this.candidate, this.registered := candidate, false;
    }

    predicate SameGeneration(other: Handle) {
      slot == other.slot && epoch == other.epoch && generation == other.generation
    }
  }

  /** What update() hands back. */
  datatype Raw = Plain(outputs: Candidate) | Reusable(handle: Handle)

  /** What an invocation returns: a handle taken on trust, a handle just checked, or a copied dict. */
  datatype Returned = Trusted(handle: Handle) | Checked(handle: Handle) | Copied(ports: map<string, string>)

  /** The characters str.strip removes. */
  predicate Blank(c: char) {
    var n := c as int;
    9 <= n <= 13 || 28 <= n <= 32 || n == 0x85 || n == 0xA0 || n == 0x1680 || 0x2000 <= n <= 0x200A
    || n == 0x2028 || n == 0x2029 || n == 0x202F || n == 0x205F || n == 0x3000
  }

  /** A non-empty trimmed string. */
  predicate ValidSlot(slot: Slot) {
    slot != "" && !Blank(slot[0]) && !Blank(slot[|slot| - 1])
  }

  class Module {
    const declared: Ports
    var initialized: bool
    var finalized: bool
    var closed: bool
    var epoch: nat
    var generations: map<Slot, nat>
    var handles: map<Slot, Handle>

    /** Every handle ever made, and those an engine invocation has checked and returned, with what they held then. */
    ghost var issued: set<Handle>
    ghost var returned: map<Handle, Candidate>

    ghost predicate Valid()
      reads this, issued
    {
      && (forall h | h in issued :: h.owner == this && h.epoch <= epoch && h.generation >= 1)
      && (forall h | h in issued && h.epoch == epoch :: h.slot in generations && h.generation <= generations[h.slot])
      && (forall g, h | g in issued && h in issued && g.SameGeneration(h) :: g == h)
      && (forall s | s in handles ::
            && handles[s] in issued && handles[s].slot == s && handles[s].epoch == epoch
            && s in generations && handles[s].generation == generations[s])
      && (forall h | h in returned :: h in issued && Passes(returned[h], declared))
    }

    /** The adapter has confirmed only handles that an engine invocation returned. */
    ghost predicate Disciplined()
      reads this, issued
    {
      forall h | h in issued && h.registered :: h in returned
    }

    /** No returned handle's outputs have been changed since they were checked. */
    ghost predicate Unchanged()
      reads this, set h | h in returned :: h.candidate
    {
      forall h | h in returned :: h.candidate.content == returned[h]
    }

    /** The handle belongs to the active generation of its slot. */
    predicate Current(h: Handle)
      reads this
    {
      h.owner == this && h.epoch == epoch && h.slot in handles && handles[h.slot] == h
    }

    predicate Running()
      reads this
    {
      initialized && !closed && !finalized
    }

    constructor (declared: Ports)
      ensures Valid() && Disciplined() && issued == {} && returned == map[] && fresh(this) && this.declared == declared
      ensures initialized && !finalized && !closed
    {
      this.declared := declared;
      initialized, finalized, closed, epoch := true, false, false, 0;
      generations, handles, issued, returned := map[], map[], {}, map[];
    }

    /** register_reusable_outputs; `inScope` says whether the innermost engine invocation is this module's. */
    method Register(slot: Slot, outputs: Outputs, inScope: bool) returns (made: Option<Handle>)
      requires Valid()
      modifies this
      ensures Valid() && (old(Disciplined()) ==> Disciplined()) && epoch == old(epoch) && returned == old(returned)
      ensures finalized == old(finalized) && closed == old(closed) && initialized == old(initialized)
      ensures made.Some? <==> old(Running()) && inScope && ValidSlot(slot)
      ensures made.None? ==> issued == old(issued) && handles == old(handles)
      ensures made.Some? ==>
                && issued == old(issued) + {made.value} && fresh(made.value) && Current(made.value)
                && made.value.slot == slot && made.value.candidate == outputs && !made.value.registered
                && forall h | h in old(issued) :: !h.SameGeneration(made.value)
      ensures forall h | h in old(issued) :: Current(h) <==> old(Current(h)) && (made.Some? ==> h.slot != slot)
    {
      if !initialized || closed || finalized || !inScope || !ValidSlot(slot) {
        return None;
      }
      var h := Issue(slot, outputs);
      made := Some(h);
    }

    /** The next generation of a slot. */
    method Issue(slot: Slot, outputs: Outputs) returns (h: Handle)
      requires Valid()
      modifies this`generations, this`handles, this`issued
      ensures Valid() && fresh(h) && issued == old(issued) + {h} && handles == old(handles)[slot := h]
      ensures h.owner == this && h.slot == slot && h.epoch == epoch && h.candidate == outputs && !h.registered
      ensures forall g | g in old(issued) :: !g.SameGeneration(h)
    {
      var generation := (if slot in generations then generations[slot] else 0) + 1;
      generations := generations[slot := generation];
      h := new Handle(this, slot, epoch, generation, outputs);
      handles := handles[slot := h];
      issued := issued + {h};
    }

    /** _confirm_reusable_outputs: raises unless the handle is current. */
    method Confirm(h: Handle) returns (accepted: bool)
      requires Valid()
      modifies h
      ensures Valid() && accepted == Current(h) && h.registered == (old(h.registered) || accepted)
      ensures old(Disciplined()) && (accepted ==> h in returned) ==> Disciplined()
    {
      accepted := h.owner == this && h.epoch == epoch && h.slot in handles && handles[h.slot] == h;
      if accepted {
        h.registered := true;
      }
    }

    /** _invalidate_reusable_outputs: no handle made so far is accepted again. */
    method Invalidate()
      requires Valid()
      modifies this`epoch, this`generations, this`handles
      ensures Valid() && (old(Disciplined()) ==> Disciplined())
      ensures epoch == old(epoch) + 1 && forall h | h in issued :: !Current(h)
    {
      epoch := epoch + 1;
      generations := map[];
      handles := map[];
    }

    /** The part of _invoke after update() has returned. */
    method FinishInvocation(raw: Raw, preserveReusable: bool) returns (r: Result<Returned>)
      requires Valid() && (raw.Reusable? && raw.handle.owner == this ==> raw.handle in issued)
      modifies this`returned
      ensures Valid() && (old(Disciplined()) ==> Disciplined())
      ensures returned == if r.Ok? && r.value.Checked? then old(returned)[r.value.handle := r.value.handle.candidate.content]
                          else old(returned)
      ensures r.Ok? <==>
                match raw
                case Plain(c) => Passes(c, declared)
                case Reusable(h) => Current(h) && ((preserveReusable && h.registered) || Passes(h.candidate.content, declared))
      ensures r.Ok? ==>
                && (r.value.Trusted? <==> raw.Reusable? && preserveReusable && raw.handle.registered)
                && (r.value.Copied? <==> !raw.Reusable? || !preserveReusable)
                && match r.value
                case Trusted(h) =>
                  && raw == Reusable(h) && Current(h)
                  && (old(Disciplined()) ==> h in returned && Passes(returned[h], declared))
                case Checked(h) => raw == Reusable(h) && Current(h) && Passes(h.candidate.content, declared)
                case Copied(ports) => Passes(Dict(ports), declared)
    {
      if raw.Reusable? {
        var h := raw.handle;
        if !(h.owner == this && h.epoch == epoch && h.slot in handles && handles[h.slot] == h) {
          return Raised;
        }
        if preserveReusable && h.registered {
          return Ok(Trusted(h));
        }
      }
      var outputs := if raw.Reusable? then raw.handle.candidate.content else raw.outputs;
      if outputs.NotADict? || !(outputs.ports.Keys <= declared.Keys)
         || exists p | p in declared :: declared[p] && p !in outputs.ports {
        return Raised;
      }
      if preserveReusable && raw.Reusable? {
        returned := returned[raw.handle := outputs];
        r := Ok(Checked(raw.handle));
      } else {
        r := Ok(Copied(outputs.ports));
      }
    }

    /** `finiteJson` says whether the snapshot is an object of finite JSON data, `hookSucceeds` whether on_restore returned. */
    method Restore(finiteJson: bool, hookSucceeds: bool) returns (done: bool)
      requires Valid()
      modifies this`epoch, this`generations, this`handles
      ensures Valid() && (old(Disciplined()) ==> Disciplined()) && done == (Running() && finiteJson && hookSucceeds)
      ensures Running() && finiteJson ==> epoch == old(epoch) + 1 && forall h | h in issued :: !Current(h)
      ensures !(Running() && finiteJson) ==> handles == old(handles) && epoch == old(epoch) && generations == old(generations)
    {
      done := false;
      if initialized && !closed && !finalized && finiteJson {
        Invalidate();
        done := hookSucceeds;
      }
    }

    /** `hookSucceeds` says whether on_finalize returned a protocol object; the handles go either way. */
    method Finalize(hookSucceeds: bool) returns (done: bool)
      requires Valid()
      modifies this`epoch, this`generations, this`handles, this`finalized
      ensures Valid() && (old(Disciplined()) ==> Disciplined()) && done == (old(Running()) && hookSucceeds) && finalized == (old(finalized) || done)
      ensures old(Running()) ==> forall h | h in issued :: !Current(h)
      ensures !old(Running()) ==> handles == old(handles) && epoch == old(epoch)
    {
      done := false;
      if initialized && !closed && !finalized {
        if hookSucceeds {
          finalized, done := true, true;
        }
        Invalidate();
      }
    }

    method Close(hookSucceeds: bool)
      requires Valid()
      modifies this`epoch, this`generations, this`handles, this`closed
      ensures Valid() && (old(Disciplined()) ==> Disciplined()) && closed == (old(closed) || hookSucceeds)
      ensures !old(closed) ==> forall h | h in issued :: !Current(h)
      ensures old(closed) ==> handles == old(handles) && epoch == old(epoch)
    {
      if closed {
        return;
      }
      closed := hookSucceeds;
      Invalidate();
    }
  }

  // ----- every run

  /** One call on the module, or a change of outputs; handles are named by the order in which they were made. */
  datatype Call =
    | DoChange(outputs: Outputs, content: Candidate)
    | DoRegister(slot: Slot, outputs: Outputs, inScope: bool)
    | DoConfirm(made: nat)
    | DoInvoke(made: nat, preserve: bool)
    | DoInvokePlain(content: Candidate, preserve: bool)
    | DoRestore(finiteJson: bool, ok: bool)
    | DoFinalize(ok: bool)
    | DoClose(ok: bool)

  /** The handles made so far, and those that were checked and returned. */
  datatype Adapter = Adapter(made: seq<Handle>, receipts: set<Handle>)

  ghost predicate Tracks(m: Module, a: Adapter)
    reads m, m.issued
  {
    m.Valid() && m.Disciplined() && a.receipts == m.returned.Keys && forall h | h in a.made :: h in m.issued
  }

  /** What the trusted path hands over: a handle, and its outputs as they are now. */
  datatype Delivery = Delivery(handle: Handle, content: Candidate)

  /** An engine invocation has checked these very outputs, and what they held then passed. */
  ghost predicate Vouched(m: Module, d: Delivery)
    reads m, d.handle.candidate
  {
    d.content == d.handle.candidate.content && d.handle in m.returned && Passes(m.returned[d.handle], m.declared)
  }

  method Invoke(m: Module, a: Adapter, k: nat, preserve: bool) returns (next: Adapter, trusted: Option<Delivery>)
    requires Tracks(m, a) && k < |a.made|
    modifies m`returned
    ensures Tracks(m, next) && next.made == a.made && old(m.returned).Keys <= m.returned.Keys
    ensures forall h | h in m.returned && (h !in old(m.returned) || m.returned[h] != old(m.returned)[h]) ::
              m.returned[h] == h.candidate.content
    ensures trusted.Some? ==> Vouched(m, trusted.value)
  {
    next, trusted := a, None;
    var h := a.made[k];
    var r := m.FinishInvocation(Reusable(h), preserve);
    if r.Ok? && r.value.Trusted? {
      trusted := Some(Delivery(h, h.candidate.content));
    }
    if r.Ok? && r.value.Checked? {
      next := a.(receipts := a.receipts + {h});
    }
  }

  /**
   * One call of the adapter, which confirms only what an engine invocation returned to
   * it. With `leavesAlone` the module does not change outputs that were checked.
   */
  method Apply(m: Module, pool: set<Outputs>, a: Adapter, call: Call, leavesAlone: bool)
    returns (next: Adapter, trusted: Option<Delivery>)
    requires Tracks(m, a)
    modifies m, m.issued, pool
    ensures Tracks(m, next) && old(m.issued) <= m.issued && fresh(m.issued - old(m.issued))
    ensures forall h | h in old(m.issued) && m.Current(h) :: old(m.Current(h))
    ensures next.made == a.made
            || (exists h | h in m.issued :: h !in old(m.issued) && next.made == a.made + [h])
    ensures leavesAlone && old(m.Unchanged()) ==> m.Unchanged()
    ensures trusted.Some? ==> Vouched(m, trusted.value)
  {
    next, trusted := a, None;
    match call {
      case DoChange(o, content) =>
        if o in pool && !(leavesAlone && o in (set h | h in a.receipts :: h.candidate)) {
          o.content := content;
        }
      case DoRegister(slot, o, inScope) =>
        var h := m.Register(slot, o, inScope);
        if h.Some? {
          next := a.(made := a.made + [h.value]);
        }
      case DoConfirm(k) =>
        if k < |a.made| && a.made[k] in a.receipts {
          var _ := m.Confirm(a.made[k]);
        }
      case DoInvoke(k, preserve) =>
        if k < |a.made| {
          next, trusted := Invoke(m, a, k, preserve);
        }
      case DoInvokePlain(content, preserve) =>
        var _ := m.FinishInvocation(Plain(content), preserve);
      case DoRestore(finiteJson, ok) =>
        var _ := m.Restore(finiteJson, ok);
      case DoFinalize(ok) =>
        var _ := m.Finalize(ok);
      case DoClose(ok) =>
        m.Close(ok);
    }
  }

  /** Outputs that hold what they were checked with pass the port check. */
  lemma UnchangedPasses(m: Module, d: Delivery)
    requires m.Unchanged() && Vouched(m, d)
    ensures Passes(d.content, m.declared)
  {
  }

  /**
   * Any sequence of calls, from any state: no generation repeats and a handle that is
   * refused now is refused ever after. If the module leaves checked outputs alone,
   * everything the trusted path hands over passes the port check.
   */
  method Drive(m: Module, pool: set<Outputs>, a: Adapter, calls: seq<Call>, leavesAlone: bool)
    returns (next: Adapter, trusted: seq<Delivery>)
    requires Tracks(m, a) && forall i, j | 0 <= i < j < |a.made| :: a.made[i] != a.made[j]
    modifies m, m.issued, pool
    ensures Tracks(m, next) && old(m.issued) <= m.issued
    ensures forall i, j | 0 <= i < j < |next.made| :: !next.made[i].SameGeneration(next.made[j])
    ensures forall h | h in old(m.issued) && m.Current(h) :: old(m.Current(h))
    ensures leavesAlone && old(m.Unchanged()) ==> forall i | 0 <= i < |trusted| :: Passes(trusted[i].content, m.declared)
  {
    next, trusted := a, [];
    ghost var sound := leavesAlone && m.Unchanged();
    for i := 0 to |calls|
      invariant Tracks(m, next) && old(m.issued) <= m.issued && fresh(m.issued - old(m.issued))
      invariant forall i, j | 0 <= i < j < |next.made| :: next.made[i] != next.made[j]
      invariant forall h | h in old(m.issued) && m.Current(h) :: old(m.Current(h))
      invariant sound ==> m.Unchanged() && forall j | 0 <= j < |trusted| :: Passes(trusted[j].content, m.declared)
    {
      var t: Option<Delivery>;
      next, t := Apply(m, pool, next, calls[i], leavesAlone);
      if t.Some? {
        if sound {
          UnchangedPasses(m, t.value);
        }
        trusted := trusted + [t.value];
      }
    }
  }

  /**
   * Without the discipline of confirming only what was returned, trust fails: whatever
   * fails the port check, registered and confirmed without an invocation in between, is
   * returned unchecked.
   */
  method UncheckedConfirmation(declared: Ports, slot: Slot, outputs: Outputs)
    returns (m: Module, h: Handle, r: Result<Returned>)
    requires ValidSlot(slot) && !Passes(outputs.content, declared)
    ensures m.Valid() && m.declared == declared && h in m.issued && h !in m.returned && h.registered
    ensures r == Ok(Trusted(h)) && h.candidate == outputs && !Passes(h.candidate.content, m.declared)
  {
    m := new Module(declared);
    var made := m.Register(slot, outputs, true);
    h := made.value;
    var _ := m.Confirm(h);
    r := m.FinishInvocation(Reusable(h), true);
  }

  /** A handle registered, checked, returned and confirmed as intended. */
  method CheckedAndConfirmed(declared: Ports, slot: Slot, outputs: Outputs) returns (m: Module, h: Handle, r: Result<Returned>)
    requires ValidSlot(slot) && Passes(outputs.content, declared)
    ensures m.Valid() && m.Disciplined() && fresh(m) && m.declared == declared
    ensures r == Ok(Checked(h)) && fresh(h) && m.Current(h) && h in m.issued && h.registered && h.candidate == outputs
  {
    m := new Module(declared);
    var made := m.Register(slot, outputs, true);
    h := made.value;
    r := m.FinishInvocation(Reusable(h), true);
    var _ := m.Confirm(h);
  }

  /** Nor does the discipline help a module that changes its outputs after they were checked and confirmed. */
  method ChangedAfterwards(declared: Ports, slot: Slot, outputs: Outputs, changed: Candidate)
    returns (m: Module, h: Handle, first: Result<Returned>, second: Result<Returned>)
    requires ValidSlot(slot) && Passes(outputs.content, declared) && !Passes(changed, declared)
    modifies outputs
    ensures m.Valid() && m.Disciplined() && m.declared == declared && h.candidate == outputs
    ensures first == Ok(Checked(h)) && second == Ok(Trusted(h)) && !Passes(h.candidate.content, m.declared)
  {
    m, h, first := CheckedAndConfirmed(declared, slot, outputs);
    outputs.content := changed;
    second := m.FinishInvocation(Reusable(h), true);
  }
}
