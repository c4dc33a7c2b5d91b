/** The hand-off of matrix products from the CPU to the emulator core: one gate field, one owner flag
    or one row at a time, in any interleaving. The CPU runs mat_vec_mul calls one after the other; the
    emulator polls the active gate. */
module Gate {
  import opened Transformer

  datatype Owner = CPU | GPU

  datatype Status = IDLE | PROCESSING | COMPLETE

  /** The arguments of one call: addresses of weights, input and output, and the shape. */
  datatype Job = Job(weights: nat, weightsSize: nat, input: nat, inputSize: nat, output: nat, outputSize: nat,
                     rows: nat, cols: nat, quant: nat)

  /** struct igpu_gate. */
  datatype Gate = Gate(owner: Owner, status: Status, job: Job)

  /** What one row of a weight matrix contributes, given weights address, format, columns, row and input. */
  type RowValue = (nat, nat, nat, nat, Vector) -> real

  /** The CPU's place in mat_vec_mul, igpu_submit_math and igpu_wait_math. FILL(k) is about to write the k-th of
      the nine argument fields. */
  datatype CpuPc =
    | CLIENT
    | SET_OWNER_CPU
    | SET_IDLE
    | FILL(k: nat)
    | PUBLISH
    | SET_PROCESSING
    | SET_OWNER_GPU
    | WAIT

  /** The emulator's place in its loop, with the locals it has read so far. FETCH(k) is about to read the k-th of
      the six fields it uses into `got`. */
  datatype EmuPc =
    | TEST_ACTIVE
    | LOAD_ACTIVE
    | TEST_OWNER(p: nat)
    | TAKE
    | FETCH(g: nat, k: nat, got: Job)
    | ROW(g: nat, r: nat, job: Job)
    | SET_COMPLETE(g: nat)
    | SET_OWNER(g: nat)

  /** Memory of floats, the gates, g_active_gate, and where both cores are. `call` and `before` record the
      running call's arguments and the memory at its start. */
  datatype Sys = Sys(mem: Vector, gates: seq<Gate>, active: Option<nat>, cpu: CpuPc, gate: nat, call: Job, before: Vector, emu: EmuPc)

  /** A scheduler's choice: which core moves, and what the client does when it is the CPU's turn between calls. */
  datatype Event = Cpu(client: Client) | Emu

  datatype Client = Write(mem: Vector) | Call(gate: nat, job: Job)

  // ---------------------------------------------------------------------
  // The steps
  // ---------------------------------------------------------------------

  const FIELDS: nat := 9
  const USED: nat := 6

  /** Copies field k of `from`, in the order mat_vec_mul writes them. */
  function WriteField(to: Job, from: Job, k: nat): Job {
    if k == 0 then to.(weights := from.weights)
    else if k == 1 then to.(weightsSize := from.weightsSize)
    else if k == 2 then to.(input := from.input)
    else if k == 3 then to.(inputSize := from.inputSize)
    else if k == 4 then to.(output := from.output)
    else if k == 5 then to.(outputSize := from.outputSize)
    else if k == 6 then to.(rows := from.rows)
    else if k == 7 then to.(cols := from.cols)
    else to.(quant := from.quant)
  }

  /** Copies the k-th field the emulator reads: rows, cols, input, output, weights, format. */
  function ReadField(to: Job, from: Job, k: nat): Job {
    if k == 0 then to.(rows := from.rows)
    else if k == 1 then to.(cols := from.cols)
    else if k == 2 then to.(input := from.input)
    else if k == 3 then to.(output := from.output)
    else if k == 4 then to.(weights := from.weights)
    else to.(quant := from.quant)
  }

  const NOTHING: Job := Job(0, 0, 0, 0, 0, 0, 0, 0, 0)

  /** Buffers inside memory, output apart from input. */
  predicate Legal(s: Sys, gate: nat, job: Job) {
    && gate < |s.gates|
    && job.input + job.cols <= |s.mem| && job.output + job.rows <= |s.mem|
    && (job.input + job.cols <= job.output || job.output + job.rows <= job.input)
  }

  function SetGate(s: Sys, g: nat, v: Gate): Sys
    requires g < |s.gates|
  {
    s.(gates := s.gates[g := v])
  }

  function ClientStep(s: Sys, c: Client): Sys {
    match c
    case Write(m) => if |m| == |s.mem| then s.(mem := m) else s
    case Call(g, job) => if Legal(s, g, job) then s.(cpu := SET_OWNER_CPU, gate := g, call := job, before := s.mem) else s
  }

  function CpuStep(s: Sys, c: Client): Sys
    requires s.gate < |s.gates|
  {
    var g := s.gates[s.gate];
    match s.cpu
    case CLIENT => ClientStep(s, c)
    case SET_OWNER_CPU => SetGate(s, s.gate, g.(owner := CPU)).(cpu := SET_IDLE)
    case SET_IDLE => SetGate(s, s.gate, g.(status := IDLE)).(cpu := FILL(0))
    case FILL(k) => SetGate(s, s.gate, g.(job := WriteField(g.job, s.call, k))).(cpu := if k + 1 < FIELDS then FILL(k + 1) else PUBLISH)
    case PUBLISH => s.(active := Some(s.gate), cpu := SET_PROCESSING)
    case SET_PROCESSING => SetGate(s, s.gate, g.(status := PROCESSING)).(cpu := SET_OWNER_GPU)
    case SET_OWNER_GPU => SetGate(s, s.gate, g.(owner := GPU)).(cpu := WAIT)
    case WAIT => if g.owner == GPU then s else s.(cpu := CLIENT)
  }

  /** Gates named by the pointers the emulator follows exist. */
  predicate PointersValid(s: Sys) {
    && s.gate < |s.gates| && (s.active.Some? ==> s.active.value < |s.gates|)
    && match s.emu
       case TEST_OWNER(p) => p < |s.gates|
       case FETCH(g, _, _) => g < |s.gates|
       case ROW(g, _, _) => g < |s.gates|
       case SET_COMPLETE(g) => g < |s.gates|
       case SET_OWNER(g) => g < |s.gates|
       case _ => true
  }

  function EmuStep(row: RowValue, s: Sys): Sys
    requires PointersValid(s)
  {
    match s.emu
    case TEST_ACTIVE => if s.active.None? then s else s.(emu := LOAD_ACTIVE)
    case LOAD_ACTIVE => if s.active.None? then s.(emu := TEST_ACTIVE) else s.(emu := TEST_OWNER(s.active.value))
    case TEST_OWNER(p) => s.(emu := if s.gates[p].owner == GPU then TAKE else TEST_ACTIVE)
    case TAKE => if s.active.None? then s.(emu := TEST_ACTIVE) else s.(emu := FETCH(s.active.value, 0, NOTHING))
    case FETCH(g, k, got) =>
      var got' := ReadField(got, s.gates[g].job, k);
      s.(emu := if k + 1 < USED then FETCH(g, k + 1, got') else ROW(g, 0, got'))
    case ROW(g, r, job) =>
      if r < job.rows then
        s.(mem := StoreRow(row, s.mem, job, r), emu := ROW(g, r + 1, job))
      else s.(emu := SET_COMPLETE(g))
    case SET_COMPLETE(g) => SetGate(s, g, s.gates[g].(status := COMPLETE)).(emu := SET_OWNER(g))
    case SET_OWNER(g) => SetGate(s, g, s.gates[g].(owner := CPU)).(emu := TEST_ACTIVE)
  }

  /** One row of the product, read from the input buffer and written to the output buffer. */
  function StoreRow(row: RowValue, mem: Vector, job: Job, r: nat): (m: Vector)
    ensures |m| == |mem|
  {
    if job.output + r < |mem|
    then mem[job.output + r := row(job.weights, job.quant, job.cols, r, Stretch(mem, job.input, job.cols))]
    else mem
  }

  function Step(row: RowValue, s: Sys, e: Event): Sys
    requires PointersValid(s)
  {
    match e
    case Cpu(c) => CpuStep(s, c)
    case Emu => EmuStep(row, s)
  }

  // ---------------------------------------------------------------------
  // The invariant
  // ---------------------------------------------------------------------

  /** Memory after the first n rows of a call that started with memory `before`. */
  function Product(row: RowValue, before: Vector, job: Job, n: nat): (m: Vector)
    ensures |m| == |before|
  {
    if n == 0 then before
    else
      var m := Product(row, before, job, n - 1);
      if job.output + n - 1 < |m|
      then m[job.output + n - 1 := row(job.weights, job.quant, job.cols, n - 1, Stretch(before, job.input, job.cols))]
      else m
  }

  /** The first k of the fields mat_vec_mul writes are the call's. */
  predicate Filled(have: Job, call: Job, k: nat) {
    && (k > 0 ==> have.weights == call.weights)
    && (k > 1 ==> have.weightsSize == call.weightsSize)
    && (k > 2 ==> have.input == call.input)
    && (k > 3 ==> have.inputSize == call.inputSize)
    && (k > 4 ==> have.output == call.output)
    && (k > 5 ==> have.outputSize == call.outputSize)
    && (k > 6 ==> have.rows == call.rows)
    && (k > 7 ==> have.cols == call.cols)
    && (k > 8 ==> have.quant == call.quant)
  }

  /** The first k of the fields the emulator reads are the call's. */
  predicate Fetched(got: Job, call: Job, k: nat) {
    && (k > 0 ==> got.rows == call.rows)
    && (k > 1 ==> got.cols == call.cols)
    && (k > 2 ==> got.input == call.input)
    && (k > 3 ==> got.output == call.output)
    && (k > 4 ==> got.weights == call.weights)
    && (k > 5 ==> got.quant == call.quant)
  }

  /** The emulator works on a gate: it has seen the owner flag and not yet given it back. */
  predicate Busy(s: Sys) {
    s.emu.TAKE? || s.emu.FETCH? || s.emu.ROW? || s.emu.SET_COMPLETE? || s.emu.SET_OWNER?
  }

  /** The CPU has handed its gate over and not got it back. */
  predicate HandedOver(s: Sys)
    requires s.gate < |s.gates|
  {
    s.cpu.WAIT? && s.gates[s.gate].owner == GPU
  }

  /** While a call runs its buffers are legal and lie in memory of the size it started with. */
  predicate CallOk(s: Sys) {
    !s.cpu.CLIENT? ==> |s.before| == |s.mem| && Legal(s, s.gate, s.call)
  }

  /** What the CPU's place says about the gate. */
  predicate CpuOk(s: Sys)
    requires s.gate < |s.gates|
  {
    var g := s.gates[s.gate];
    match s.cpu
    case CLIENT => true
    case SET_OWNER_CPU => true
    case SET_IDLE => g.owner == CPU
    case FILL(k) => g.owner == CPU && k < FIELDS && Filled(g.job, s.call, k)
    case PUBLISH => g.owner == CPU && Filled(g.job, s.call, FIELDS)
    case SET_PROCESSING => g.owner == CPU && Filled(g.job, s.call, FIELDS) && s.active == Some(s.gate)
    case SET_OWNER_GPU => g.owner == CPU && Filled(g.job, s.call, FIELDS) && s.active == Some(s.gate) && g.status == PROCESSING
    case WAIT => Filled(g.job, s.call, FIELDS) && s.active == Some(s.gate)
  }

  /** A gate the emulator may look at is owned by the GPU only when it was handed over. */
  predicate PollOk(s: Sys)
    requires PointersValid(s)
  {
    && (s.active.Some? && s.gates[s.active.value].owner == GPU ==> HandedOver(s) && s.active == Some(s.gate))
    && (s.emu.TEST_OWNER? && s.gates[s.emu.p].owner == GPU ==> HandedOver(s) && s.emu.p == s.gate)
  }

  /** What the emulator's place says about the call and the memory. */
  predicate EmuOk(row: RowValue, s: Sys)
    requires PointersValid(s)
  {
    match s.emu
    case FETCH(g, k, got) => g == s.gate && k < USED && Fetched(got, s.call, k) && s.mem == s.before
    case ROW(g, r, job) => g == s.gate && Fetched(job, s.call, USED) && r <= s.call.rows && s.mem == Product(row, s.before, s.call, r)
    case SET_COMPLETE(g) => g == s.gate && s.mem == Product(row, s.before, s.call, s.call.rows)
    case SET_OWNER(g) => g == s.gate && s.gates[g].status == COMPLETE && s.mem == Product(row, s.before, s.call, s.call.rows)
    case _ => true
  }

  /** Memory while the emulator is not busy: as at the call's start until the work is done, the product after. */
  predicate MemOk(row: RowValue, s: Sys)
    requires PointersValid(s)
  {
    !s.cpu.CLIENT? && (!Busy(s) || s.emu.TAKE?) ==>
      if s.cpu.WAIT? && s.gates[s.gate].owner == CPU
      then s.mem == Product(row, s.before, s.call, s.call.rows) && s.gates[s.gate].status == COMPLETE
      else s.mem == s.before
  }

  ghost predicate Inv(row: RowValue, s: Sys) {
    && PointersValid(s)
    && CallOk(s) && CpuOk(s) && PollOk(s)
    && (Busy(s) ==> HandedOver(s))
    && EmuOk(row, s) && MemOk(row, s)
  }

  /** At boot no gate is published; its gates may hold anything. */
  predicate Init(s: Sys) {
    s.gate < |s.gates| && s.active.None? && s.cpu.CLIENT? && s.emu.TEST_ACTIVE?
  }

  lemma InitInv(row: RowValue, s: Sys)
    requires Init(s)
    ensures Inv(row, s)
  {
  }
}
