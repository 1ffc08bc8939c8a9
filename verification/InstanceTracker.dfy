/** Copy-on-write instances of one process. The kernel's soft-dirty bits say which pages may differ from
  * the file. They are cleared for the whole process at once, and only when the first instance is opened. */
module InstanceTracker {
  import opened Basics
  import opened PageWriteback

  /** `dirty` are the soft-dirty bits of the pages of `memory`. */
  datatype Instance = Instance(memory: seq<Byte>, file: seq<Byte>, dirty: seq<bool>)

  /** `checked` and `supported` are the static flags of `pagemap_accessor`. */
  datatype Process = Process(instances: map<nat, Instance>, tracked: set<nat>, checked: bool, supported: bool)

  datatype Sizes = Sizes(page: nat, increment: nat)

  ghost predicate SizesOk(z: Sizes) {
    z.page > 0 && z.increment > 0
  }

  // ----- steps

  /** `save_database_file` for an instance whose page map can be read. */
  ghost function Save(i: Instance, tracked: bool, z: Sizes): Instance
    requires SizesOk(z) && |i.memory| == |i.file|
  {
    i.(file := SavedBytes(i.memory, i.file, i.dirty, z.page, z.increment, tracked, _ => true))
  }

  ghost predicate Sized(p: Process) {
    forall id | id in p.instances :: |p.instances[id].memory| == |p.instances[id].file|
  }

  /** All tracked instances are saved. */
  ghost function SaveTracked(p: Process, z: Sizes): (r: Process)
    requires SizesOk(z) && Sized(p)
    ensures Sized(r) && r.tracked == p.tracked && r.instances.Keys == p.instances.Keys
  {
    p.(instances := map id | id in p.instances ::
      if id in p.tracked then Save(p.instances[id], true, z) else p.instances[id])
  }

  function Clean(i: Instance): Instance {
    i.(dirty := seq(|i.dirty|, _ => false))
  }

  /** What the check for soft-dirty bits finds: whether clearing them succeeded, and whether they work. */
  datatype Check = Check(cleared: bool, works: bool)

  /** `check_pagemap_support_and_clear_refs`: the first call clears all bits and looks whether they work;
    * later calls only give its result again. */
  function CheckSupport(p: Process, found: Check): Process {
    if p.checked then p
    else Process(
      if found.cleared then map id | id in p.instances :: Clean(p.instances[id]) else p.instances,
      p.tracked, true, found.cleared && found.works)
  }

  /** `setup_copy_on_write_mapping`: saves what is tracked, maps the file, and tracks the new instance if
    * the bits work. `bits` are those of its fresh pages. */
  ghost function Open(p: Process, id: nat, file: seq<Byte>, bits: seq<bool>, found: Check, z: Sizes): Process
    requires SizesOk(z) && Sized(p)
  {
    var q := SaveTracked(p, z);
    var r := CheckSupport(q.(instances := q.instances[id := Instance(file, file, bits)]), found);
    if r.supported then r.(tracked := r.tracked + {id}) else r
  }

  /** A write to the mapped memory. */
  function Write(p: Process, id: nat, x: nat, b: Byte, z: Sizes): Process
    requires id in p.instances && x < |p.instances[id].memory| && z.page > 0
  {
    var i := p.instances[id];
    p.(instances := p.instances[id := i.(
      memory := i.memory[x := b],
      dirty := if PageOf(x, z.page) < |i.dirty| then i.dirty[PageOf(x, z.page) := true] else i.dirty)])
  }

  /** The destructor of a writable instance saves it and takes it off the tracker. */
  ghost function Close(p: Process, id: nat, z: Sizes): (r: (Process, seq<Byte>))
    requires SizesOk(z) && id in p.instances && Sized(p)
  {
    (p.(instances := p.instances - {id}, tracked := p.tracked - {id}), Save(p.instances[id], id in p.tracked, z).file)
  }

  datatype Op =
    | DoOpen(id: nat, file: seq<Byte>, bits: seq<bool>, found: Check)
    | DoWrite(id: nat, x: nat, b: Byte)
    | DoClose(id: nat)

  ghost predicate Enabled(p: Process, op: Op, z: Sizes) {
    match op
    case DoOpen(id, file, bits, _) => id !in p.instances && id !in p.tracked && |file| == |bits| * z.page
    case DoWrite(id, x, _) => id in p.instances && x < |p.instances[id].memory|
    case DoClose(id) => id in p.instances
  }

  ghost function Step(p: Process, op: Op, z: Sizes): Process
    requires SizesOk(z) && Sized(p) && Enabled(p, op, z)
  {
    match op
    case DoOpen(id, file, bits, found) => Open(p, id, file, bits, found, z)
    case DoWrite(id, x, b) => Write(p, id, x, b, z)
    case DoClose(id) => Close(p, id, z).0
  }

  // ----- the invariant

  /** The pages whose bit is clear agree with the file. */
  ghost predicate Faithful(i: Instance, z: Sizes)
    requires z.page > 0
  {
    && |i.memory| == |i.file| == |i.dirty| * z.page
    && forall x | 0 <= x < |i.memory| && !IsDirty(i.dirty, x, z.page) :: i.file[x] == i.memory[x]
  }

  ghost predicate Ok(p: Process, z: Sizes)
    requires z.page > 0
  {
    && p.tracked <= p.instances.Keys && Sized(p)
    && forall id | id in p.tracked :: Faithful(p.instances[id], z)
  }

  lemma SavedFaithful(i: Instance, z: Sizes)
    requires SizesOk(z) && Faithful(i, z)
    ensures Save(i, true, z).file == i.memory
    ensures Faithful(Save(i, true, z), z) && Faithful(Clean(Save(i, true, z)), z)
  {
    SavedByPages(i.memory, i.file, i.dirty, z.page, z.increment, _ => true);
  }

  lemma WrittenFaithful(i: Instance, x: nat, b: Byte, z: Sizes)
    requires SizesOk(z) && Faithful(i, z) && x < |i.memory|
    ensures PageOf(x, z.page) < |i.dirty|
    ensures Faithful(i.(memory := i.memory[x := b], dirty := i.dirty[PageOf(x, z.page) := true]), z)
  {
    PageRange(x, 0, |i.dirty|, z.page);
  }

  /** Every step keeps the tracked instances faithful. An instance opened later is faithful whatever bits
    * its pages start with, and the others keep theirs. */
  lemma StepOk(p: Process, op: Op, z: Sizes)
    requires SizesOk(z) && Ok(p, z) && Enabled(p, op, z)
    ensures Ok(Step(p, op, z), z)
  {
    hide Faithful, Save, SavedBytes;
    match op
    case DoOpen(id, file, bits, found) =>
      forall x | x in p.tracked
        ensures Faithful(Save(p.instances[x], true, z), z) && Faithful(Clean(Save(p.instances[x], true, z)), z)
      {
        SavedFaithful(p.instances[x], z);
      }
      FreshFaithful(file, bits, z);
    case DoWrite(id, x, b) =>
      if id in p.tracked {
        WrittenFaithful(p.instances[id], x, b, z);
      }
    case DoClose(id) =>
  }

  lemma FreshFaithful(file: seq<Byte>, bits: seq<bool>, z: Sizes)
    requires z.page > 0 && |file| == |bits| * z.page
    ensures Faithful(Instance(file, file, bits), z) && Faithful(Clean(Instance(file, file, bits)), z)
  {}

  // ----- whole runs

  ghost predicate Runs(p: Process, ops: seq<Op>, z: Sizes)
    requires SizesOk(z)
    decreases |ops|
  {
    ops == [] || (Sized(p) && Enabled(p, ops[0], z) && Runs(Step(p, ops[0], z), ops[1..], z))
  }

  ghost function After(p: Process, ops: seq<Op>, z: Sizes): Process
    requires SizesOk(z) && Runs(p, ops, z)
    decreases |ops|
  {
    if ops == [] then p else After(Step(p, ops[0], z), ops[1..], z)
  }

  lemma {:induction false} RunOk(p: Process, ops: seq<Op>, z: Sizes)
    requires SizesOk(z) && Ok(p, z) && Runs(p, ops, z)
    ensures Ok(After(p, ops, z), z)
    decreases |ops|
  {
    hide Ok, Step;
    if ops != [] {
      StepOk(p, ops[0], z);
      RunOk(Step(p, ops[0], z), ops[1..], z);
    }
  }

  /** Whatever instances were opened, written and closed before, closing a tracked one leaves its
    * memory in the file. */
  lemma ClosingSaves(p: Process, ops: seq<Op>, id: nat, z: Sizes)
    requires SizesOk(z) && Ok(p, z) && Runs(p, ops, z) && id in After(p, ops, z).tracked
    ensures var q := After(p, ops, z); id in q.instances && Sized(q) && Close(q, id, z).1 == q.instances[id].memory
  {
    hide Faithful, Save, Step;
    RunOk(p, ops, z);
    SavedFaithful(After(p, ops, z).instances[id], z);
  }

  /** Closing one that is not tracked leaves in the file every byte that lies in a chunk with a byte that is not
    * zero. Where a whole chunk of the memory is zero the file stays as it was, so that the file is the memory if
    * and only if it was zero there. */
  lemma ClosingUntracked(p: Process, ops: seq<Op>, id: nat, z: Sizes)
    requires SizesOk(z) && Ok(p, z) && Runs(p, ops, z)
    requires id in After(p, ops, z).instances && id !in After(p, ops, z).tracked
    ensures Sized(After(p, ops, z))
    ensures var q := After(p, ops, z);
      var memory, file, closed := q.instances[id].memory, q.instances[id].file, Close(q, id, z).1;
      && |closed| == |memory| == |file|
      && (forall x | 0 <= x < |memory| :: closed[x] ==
            if forall y | 0 <= y < |memory| && y / z.increment == x / z.increment :: memory[y] == 0 then file[x]
            else memory[x])
      && (closed == memory <==>
            forall x | 0 <= x < |memory|
              && (forall y | 0 <= y < |memory| && y / z.increment == x / z.increment :: memory[y] == 0) :: file[x] == 0)
  {
    hide Save, Faithful, Step;
    RunOk(p, ops, z);
    SavedUntracked(After(p, ops, z).instances[id], z);
  }

  lemma SavedUntracked(i: Instance, z: Sizes)
    requires SizesOk(z) && |i.memory| == |i.file|
    ensures var closed := Save(i, false, z).file;
      && |closed| == |i.memory|
      && (forall x | 0 <= x < |closed| :: closed[x] ==
            if forall y | 0 <= y < |i.memory| && y / z.increment == x / z.increment :: i.memory[y] == 0 then i.file[x]
            else i.memory[x])
      && (closed == i.memory <==>
            forall x | 0 <= x < |i.memory|
              && (forall y | 0 <= y < |i.memory| && y / z.increment == x / z.increment :: i.memory[y] == 0) ::
                i.file[x] == 0)
  {
    hide Saves;
    forall x | 0 <= x < |i.memory|
      ensures Save(i, false, z).file[x] ==
        if forall y | 0 <= y < |i.memory| && y / z.increment == x / z.increment :: i.memory[y] == 0 then i.file[x]
        else i.memory[x]
    {
      SavedByte(i.memory, i.file, i.dirty, z.page, z.increment, false, _ => true, x);
    }
    SavedByChunks(i.memory, i.file, i.dirty, z.page, z.increment, _ => true);
  }

  /** What a step does to the memory and the file of each instance: opening one maps its file, and saves the tracked
    * ones; a write changes one byte of one memory; closing one leaves the others alone. */
  lemma StepTells(p: Process, op: Op, z: Sizes)
    requires SizesOk(z) && Ok(p, z) && Enabled(p, op, z)
    ensures var r := Step(p, op, z);
      match op
      case DoOpen(id, file, _, _) =>
        && r.instances.Keys == p.instances.Keys + {id}
        && r.instances[id].memory == r.instances[id].file == file
        && (forall x | x in p.instances ::
              && r.instances[x].memory == p.instances[x].memory
              && r.instances[x].file == if x in p.tracked then p.instances[x].memory else p.instances[x].file)
      case DoWrite(id, at, b) =>
        && r == p.(instances := r.instances) && r.instances.Keys == p.instances.Keys
        && r.instances[id].memory == p.instances[id].memory[at := b]
        && r.instances[id].file == p.instances[id].file && |r.instances[id].dirty| == |p.instances[id].dirty|
        && (forall n | 0 <= n < |p.instances[id].dirty| ::
              r.instances[id].dirty[n] <==> p.instances[id].dirty[n] || n == at / z.page)
        && (forall x | x in p.instances && x != id :: r.instances[x] == p.instances[x])
      case DoClose(id) =>
        && r == p.(instances := r.instances, tracked := p.tracked - {id})
        && r.instances.Keys == p.instances.Keys - {id}
        && (forall x | x in r.instances :: r.instances[x] == p.instances[x])
  {
    hide SavedBytes, Faithful;
    forall x | x in p.tracked ensures Save(p.instances[x], true, z).file == p.instances[x].memory {
      SavedFaithful(p.instances[x], z);
    }
  }

  // ----- the life of an instance

  /** `memory` after the writes of `ops` to instance `id`. */
  function Written(memory: seq<Byte>, ops: seq<Op>, id: nat): (r: seq<Byte>)
    ensures |r| == |memory|
    decreases |ops|
  {
    if ops == [] then memory
    else
      var o, before := ops[|ops| - 1], Written(memory, ops[..|ops| - 1], id);
      if o.DoWrite? && o.id == id && o.x < |before| then before[o.x := o.b] else before
  }

  lemma {:induction false} RunAppend(p: Process, ops: seq<Op>, op: Op, z: Sizes)
    requires SizesOk(z) && Runs(p, ops + [op], z)
    ensures Runs(p, ops, z) && Sized(After(p, ops, z)) && Enabled(After(p, ops, z), op, z)
    ensures After(p, ops + [op], z) == Step(After(p, ops, z), op, z)
    decreases |ops|
  {
    hide Step, Enabled, Sized;
    if ops == [] {
      assert [op][1..] == [];
    } else {
      assert (ops + [op])[1..] == ops[1..] + [op];
      RunAppend(Step(p, ops[0], z), ops[1..], op, z);
    }
  }

  /** Open an instance, do anything to it and to others, and close it: if the bits work the file is then what was
    * opened with all writes made to it, in their order. If they do not, it is that wherever no whole chunk is zero,
    * and elsewhere what was opened. */
  lemma InstanceSaved(p: Process, open: Op, ops: seq<Op>, z: Sizes)
    requires SizesOk(z) && Ok(p, z) && open.DoOpen? && Runs(p, [open] + ops, z)
    requires forall op <- ops :: !(op.DoClose? && op.id == open.id)
    ensures var q, memory := After(p, [open] + ops, z), Written(open.file, ops, open.id);
      && Sized(q) && open.id in q.instances && q.instances[open.id].memory == memory
      && (open.id in q.tracked ==> Close(q, open.id, z).1 == memory)
      && (open.id !in q.tracked ==>
            |Close(q, open.id, z).1| == |memory| &&
            forall x | 0 <= x < |memory| :: Close(q, open.id, z).1[x] ==
              if forall y | 0 <= y < |memory| && y / z.increment == x / z.increment :: memory[y] == 0 then open.file[x]
              else memory[x])
  {
    hide Step, Runs, After, Close, Ok, Enabled;
    InstanceMemory(p, open, ops, z);
    RunOk(p, [open] + ops, z);
    OkSized(After(p, [open] + ops, z), z);
    if open.id in After(p, [open] + ops, z).tracked {
      ClosingSaves(p, [open] + ops, open.id, z);
    } else {
      ClosingUntracked(p, [open] + ops, open.id, z);
    }
  }

  lemma OkSized(p: Process, z: Sizes)
    requires z.page > 0 && Ok(p, z)
    ensures Sized(p)
  {}

  lemma {:induction false} InstanceMemory(p: Process, open: Op, ops: seq<Op>, z: Sizes)
    requires SizesOk(z) && Ok(p, z) && open.DoOpen? && Runs(p, [open] + ops, z)
    requires forall op <- ops :: !(op.DoClose? && op.id == open.id)
    ensures var q := After(p, [open] + ops, z);
      && open.id in q.instances && q.instances[open.id].memory == Written(open.file, ops, open.id)
      && (open.id !in q.tracked ==> q.instances[open.id].file == open.file)
    decreases |ops|
  {
    hide Step, Ok, Enabled;
    if ops == [] {
      assert [open] + [] == [] + [open];
      RunAppend(p, [], open, z);
      OpenTells(p, open, z);
    } else {
      var n := |ops| - 1;
      assert [open] + ops == ([open] + ops[..n]) + [ops[n]];
      RunAppend(p, [open] + ops[..n], ops[n], z);
      InstanceMemory(p, open, ops[..n], z);
      RunOk(p, [open] + ops[..n], z);
      OneTells(After(p, [open] + ops[..n], z), ops[n], open.id, z);
    }
  }

  lemma OpenTells(p: Process, op: Op, z: Sizes)
    requires SizesOk(z) && Ok(p, z) && Enabled(p, op, z) && op.DoOpen?
    ensures var r := Step(p, op, z);
      op.id in r.instances && r.instances[op.id].memory == r.instances[op.id].file == op.file
  {
    StepTells(p, op, z);
  }

  lemma OneTells(p: Process, op: Op, id: nat, z: Sizes)
    requires SizesOk(z) && Ok(p, z) && Enabled(p, op, z) && id in p.instances && !(op.DoClose? && op.id == id)
    ensures var r := Step(p, op, z);
      && id in r.instances
      && r.instances[id].memory ==
           (if op.DoWrite? && op.id == id && op.x < |p.instances[id].memory| then p.instances[id].memory[op.x := op.b]
            else p.instances[id].memory)
      && (id !in r.tracked ==> id !in p.tracked && r.instances[id].file == p.instances[id].file)
  {
    StepTells(p, op, z);
  }

  /** The bits of the other instances are cleared if and only if this is the first check of the process and
    * clearing works, contrary to what the comment says. The new instance is tracked if the bits work. */
  lemma OnlyFirstOpenClears(p: Process, id: nat, file: seq<Byte>, bits: seq<bool>, found: Check, z: Sizes)
    requires SizesOk(z) && Sized(p) && id !in p.instances
    ensures var r, clears := Open(p, id, file, bits, found, z), !p.checked && found.cleared;
      && r.checked && r.instances.Keys == p.instances.Keys + {id}
      && (forall x | x in p.instances ::
            && (clears ==> r.instances[x].dirty == seq(|p.instances[x].dirty|, _ => false))
            && (!clears ==> r.instances[x].dirty == p.instances[x].dirty))
      && r.instances[id].dirty == (if clears then seq(|bits|, _ => false) else bits)
      && r.supported == (if p.checked then p.supported else found.cleared && found.works)
      && r.tracked == (if r.supported then p.tracked + {id} else p.tracked)
  {}

  /** From the second instance on, opening clears no bit. */
  lemma LaterOpensKeepBits(p: Process, id: nat, file: seq<Byte>, bits: seq<bool>, found: Check, z: Sizes)
    requires SizesOk(z) && Sized(p) && p.checked
    ensures var r := Open(p, id, file, bits, found, z);
      && (forall x | x in p.instances && x != id :: x in r.instances && r.instances[x].dirty == p.instances[x].dirty)
      && r.instances[id].dirty == bits && (id in r.tracked <==> p.supported || id in p.tracked)
  {}
}
