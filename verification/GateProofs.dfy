/** Every interleaving of the CPU and the emulator keeps the gate's invariant; hence the emulator never
    sees a half-filled gate, the two never work on it together, mat_vec_mul returns with its own
    complete product, and under fair scheduling it does return. */
module GateProofs {
  import opened Transformer
  import opened Gate

  // ---------------------------------------------------------------------
  // One step
  // ---------------------------------------------------------------------

  lemma ClientKeepsInv(row: RowValue, s: Sys, c: Client)
    requires Inv(row, s) && s.cpu.CLIENT?
    ensures Inv(row, ClientStep(s, c))
  {
  }

  lemma SetOwnerKeepsInv(row: RowValue, s: Sys)
    requires Inv(row, s) && s.cpu.SET_OWNER_CPU?
    ensures Inv(row, CpuStep(s, Write([])))
  {
  }

  lemma FillKeepsInv(row: RowValue, s: Sys, c: Client)
    requires Inv(row, s) && (s.cpu.SET_IDLE? || s.cpu.FILL? || s.cpu.PUBLISH?)
    ensures Inv(row, CpuStep(s, c))
  {
  }

  lemma HandOverKeepsInv(row: RowValue, s: Sys, c: Client)
    requires Inv(row, s) && (s.cpu.SET_PROCESSING? || s.cpu.SET_OWNER_GPU?)
    ensures Inv(row, CpuStep(s, c))
  {
  }

  lemma WaitKeepsInv(row: RowValue, s: Sys, c: Client)
    requires Inv(row, s) && s.cpu.WAIT?
    ensures Inv(row, CpuStep(s, c))
  {
  }

  lemma CpuKeepsInv(row: RowValue, s: Sys, c: Client)
    requires Inv(row, s)
    ensures Inv(row, CpuStep(s, c))
  {
    match s.cpu
    case CLIENT => ClientKeepsInv(row, s, c);
    case SET_OWNER_CPU => SetOwnerKeepsInv(row, s);
    case SET_IDLE => FillKeepsInv(row, s, c);
    case FILL(_) => FillKeepsInv(row, s, c);
    case PUBLISH => FillKeepsInv(row, s, c);
    case SET_PROCESSING => HandOverKeepsInv(row, s, c);
    case SET_OWNER_GPU => HandOverKeepsInv(row, s, c);
    case WAIT => WaitKeepsInv(row, s, c);
  }

  lemma PollKeepsInv(row: RowValue, s: Sys)
    requires Inv(row, s) && (s.emu.TEST_ACTIVE? || s.emu.LOAD_ACTIVE? || s.emu.TEST_OWNER? || s.emu.TAKE?)
    ensures Inv(row, EmuStep(row, s))
  {
  }

  lemma FetchKeepsInv(row: RowValue, s: Sys)
    requires Inv(row, s) && s.emu.FETCH?
    ensures Inv(row, EmuStep(row, s))
  {
  }

  lemma {:induction false} InputKept(row: RowValue, before: Vector, job: Job, n: nat)
    requires job.input + job.cols <= |before| && n <= job.rows
    requires job.input + job.cols <= job.output || job.output + job.rows <= job.input
    ensures Stretch(Product(row, before, job, n), job.input, job.cols) == Stretch(before, job.input, job.cols)
  {
    if n > 0 { InputKept(row, before, job, n - 1); }
  }

  lemma RowKeepsInv(row: RowValue, s: Sys)
    requires Inv(row, s) && s.emu.ROW?
    ensures Inv(row, EmuStep(row, s))
  {
    InputKept(row, s.before, s.call, s.emu.r);
  }

  lemma FinishKeepsInv(row: RowValue, s: Sys)
    requires Inv(row, s) && (s.emu.SET_COMPLETE? || s.emu.SET_OWNER?)
    ensures Inv(row, EmuStep(row, s))
  {
  }

  lemma EmuKeepsInv(row: RowValue, s: Sys)
    requires Inv(row, s)
    ensures Inv(row, EmuStep(row, s))
  {
    match s.emu
    case TEST_ACTIVE => PollKeepsInv(row, s);
    case LOAD_ACTIVE => PollKeepsInv(row, s);
    case TEST_OWNER(_) => PollKeepsInv(row, s);
    case TAKE => PollKeepsInv(row, s);
    case FETCH(_, _, _) => FetchKeepsInv(row, s);
    case ROW(_, _, _) => RowKeepsInv(row, s);
    case SET_COMPLETE(_) => FinishKeepsInv(row, s);
    case SET_OWNER(_) => FinishKeepsInv(row, s);
  }

  lemma StepKeepsInv(row: RowValue, s: Sys, e: Event)
    requires Inv(row, s)
    ensures Inv(row, Step(row, s, e))
  {
    match e
    case Cpu(c) => CpuKeepsInv(row, s, c);
    case Emu => EmuKeepsInv(row, s);
  }

  // ---------------------------------------------------------------------
  // Runs
  // ---------------------------------------------------------------------

  /** Pointers stay valid along the events. */
  ghost predicate Runs(row: RowValue, s: Sys, events: seq<Event>)
    decreases |events|
  {
    PointersValid(s) && (events == [] || Runs(row, Step(row, s, events[0]), events[1..]))
  }

  ghost function Run(row: RowValue, s: Sys, events: seq<Event>): (t: Sys)
    requires Runs(row, s, events)
    ensures PointersValid(t)
    decreases |events|
  {
    if events == [] then s else Run(row, Step(row, s, events[0]), events[1..])
  }

  /** The invariant holds after every interleaving. */
  lemma {:induction false} RunKeepsInv(row: RowValue, s: Sys, events: seq<Event>)
    requires Inv(row, s)
    ensures Runs(row, s, events) && Inv(row, Run(row, s, events))
    decreases |events|
  {
    if events != [] {
      StepKeepsInv(row, s, events[0]);
      RunKeepsInv(row, Step(row, s, events[0]), events[1..]);
    }
  }

  /** Whenever the emulator is about to read a field, every field of that gate is the running call's, the CPU is
      waiting, and what has been read so far is the call's too. */
  lemma NeverHalfFilled(row: RowValue, s: Sys, events: seq<Event>)
    requires Init(s)
    ensures Runs(row, s, events)
    ensures var t := Run(row, s, events);
      t.emu.FETCH? ==>
        && t.emu.g == t.gate && t.gates[t.emu.g].job == t.call && t.cpu.WAIT?
        && Fetched(t.emu.got, t.call, t.emu.k)
  {
    InitInv(row, s);
    RunKeepsInv(row, s, events);
  }

  /** While the emulator works on a gate the CPU only waits: it is in its polling loop, the flag says GPU, and no
      client write can happen. */
  lemma NeverTogether(row: RowValue, s: Sys, events: seq<Event>)
    requires Init(s)
    ensures Runs(row, s, events)
    ensures var t := Run(row, s, events);
      Busy(t) ==> HandedOver(t) && t.active == Some(t.gate) && forall c :: CpuStep(t, c) == t
  {
    InitInv(row, s);
    RunKeepsInv(row, s, events);
  }

  /** When igpu_wait_math's loop ends, memory is what it was when the call began with the output buffer holding
      the call's complete product. */
  lemma ReturnsOwnProduct(row: RowValue, s: Sys, events: seq<Event>, c: Client)
    requires Init(s)
    ensures Runs(row, s, events)
    ensures var t := Run(row, s, events);
      t.cpu.WAIT? && CpuStep(t, c).cpu.CLIENT? ==>
        && t.mem == Product(row, t.before, t.call, t.call.rows)
        && t.gates[t.gate].status == COMPLETE && CpuStep(t, c).mem == t.mem
  {
    InitInv(row, s);
    RunKeepsInv(row, s, events);
  }

  /** The product touches the output buffer only and holds there one value per row. */
  lemma {:induction false} ProductIs(row: RowValue, before: Vector, job: Job, n: nat)
    requires job.output + job.rows <= |before| && n <= job.rows
    ensures var m := Product(row, before, job, n);
      && (forall r :: 0 <= r < n ==> m[job.output + r] == row(job.weights, job.quant, job.cols, r, Stretch(before, job.input, job.cols)))
      && (forall i :: 0 <= i < |before| && !(job.output <= i < job.output + n) ==> m[i] == before[i])
  {
    if n > 0 { ProductIs(row, before, job, n - 1); }
  }

  lemma StretchIsMatVec(m: Vector, o: nat, w: Transformer.Matrix, v: Vector)
    requires o + |w| <= |m| && forall r: nat :: r < |w| ==> m[o + r] == Dot(w[r], v, |v|)
    ensures Stretch(m, o, |w|) == MatVec(w, v)
  {
  }

  // ---------------------------------------------------------------------
  // Completion
  // ---------------------------------------------------------------------

  /** Emulator steps left until it gives the gate back, in the state of a handed-over gate. */
  function EmuLeft(s: Sys): nat {
    match s.emu
    case TEST_OWNER(p) => s.call.rows + (if p == s.gate then USED + 5 else USED + 8)
    case TEST_ACTIVE => s.call.rows + USED + 7
    case LOAD_ACTIVE => s.call.rows + USED + 6
    case TAKE => s.call.rows + USED + 4
    case FETCH(_, k, _) => s.call.rows + 3 + (if k < USED then USED - k else 0)
    case ROW(_, r, _) => 3 + (if r < s.call.rows then s.call.rows - r else 0)
    case SET_COMPLETE(_) => 2
    case SET_OWNER(_) => 1
  }

  /** CPU steps left until the gate is handed over. */
  function CpuLeft(pc: CpuPc): nat {
    match pc
    case CLIENT => 0
    case SET_OWNER_CPU => FIELDS + 5
    case SET_IDLE => FIELDS + 4
    case FILL(k) => 3 + (if k < FIELDS then FIELDS - k else 0)
    case PUBLISH => 3
    case SET_PROCESSING => 2
    case SET_OWNER_GPU => 1
    case WAIT => 0
  }

  /** Steps of the core whose turn matters until the running call returns. */
  function Rank(s: Sys): nat
    requires PointersValid(s)
  {
    if s.cpu.CLIENT? then 0
    else if !s.cpu.WAIT? then CpuLeft(s.cpu) + s.call.rows + USED + 10
    else if s.gates[s.gate].owner == GPU then EmuLeft(s) + 1
    else 1
  }

  /** It is the emulator's step that matters while the gate is handed over, the CPU's otherwise. */
  predicate Helps(s: Sys, e: Event)
    requires PointersValid(s)
  {
    if HandedOver(s) then e.Emu? else e.Cpu?
  }

  lemma CpuRank(row: RowValue, s: Sys, c: Client)
    requires Inv(row, s) && Inv(row, CpuStep(s, c)) && !s.cpu.CLIENT?
    ensures var t := CpuStep(s, c);
      if HandedOver(s) then t == s else Rank(t) < Rank(s)
  {
    if s.cpu.WAIT? { WaitRank(row, s, c); } else { FillRank(row, s, c); }
  }

  lemma WaitRank(row: RowValue, s: Sys, c: Client)
    requires Inv(row, s) && s.cpu.WAIT?
    ensures PointersValid(CpuStep(s, c))
    ensures var t := CpuStep(s, c);
      if HandedOver(s) then t == s else Rank(t) < Rank(s)
  {
  }

  lemma FillRank(row: RowValue, s: Sys, c: Client)
    requires Inv(row, s) && Inv(row, CpuStep(s, c)) && !s.cpu.CLIENT? && !s.cpu.WAIT?
    ensures Rank(CpuStep(s, c)) < Rank(s)
  {
  }

  /** The step that matters lowers the rank, or returns; any other leaves rank and roles as they are. */
  lemma StepRank(row: RowValue, s: Sys, e: Event)
    requires Inv(row, s) && !s.cpu.CLIENT?
    ensures var t := Step(row, s, e);
      && PointersValid(t)
      && (Helps(s, e) ==> Rank(t) < Rank(s))
      && (!Helps(s, e) ==> Rank(t) == Rank(s) && (HandedOver(t) <==> HandedOver(s)) && !t.cpu.CLIENT?)
  {
    StepKeepsInv(row, s, e);
    match e
    case Cpu(c) => CpuRank(row, s, c);
    case Emu => if HandedOver(s) { EmuRank(row, s); } else { IdleEmuRank(row, s); }
  }

  lemma EmuRank(row: RowValue, s: Sys)
    requires Inv(row, s) && HandedOver(s)
    ensures var t := EmuStep(row, s); PointersValid(t) && Rank(t) < Rank(s)
  {
  }

  lemma IdleEmuRank(row: RowValue, s: Sys)
    requires Inv(row, s) && !HandedOver(s) && !s.cpu.CLIENT?
    ensures var t := EmuStep(row, s); PointersValid(t) && Rank(t) == Rank(s) && !HandedOver(t) && !t.cpu.CLIENT?
  {
  }

  /** Somewhere along the events the running call has returned. */
  ghost predicate Returns(row: RowValue, s: Sys, events: seq<Event>)
    requires Runs(row, s, events)
    decreases |events|
  {
    s.cpu.CLIENT? || (events != [] && Returns(row, Step(row, s, events[0]), events[1..]))
  }

  /** Both cores get a turn. */
  predicate Fair(events: seq<Event>) {
    (exists i :: 0 <= i < |events| && events[i].Cpu?) && (exists i :: 0 <= i < |events| && events[i].Emu?)
  }

  predicate SomeHelp(s: Sys, events: seq<Event>)
    requires PointersValid(s)
  {
    exists i :: 0 <= i < |events| && Helps(s, events[i])
  }

  /** Events in which the core that matters gets a turn bring the call nearer to its return. */
  lemma {:induction false} HelpLowersRank(row: RowValue, s: Sys, events: seq<Event>)
    requires Inv(row, s) && !s.cpu.CLIENT? && SomeHelp(s, events)
    ensures Runs(row, s, events) && (Returns(row, s, events) || Rank(Run(row, s, events)) < Rank(s))
    decreases |events|
  {
    RunKeepsInv(row, s, events);
    var e, rest := events[0], events[1..];
    var t := Step(row, s, e);
    StepKeepsInv(row, s, e);
    StepRank(row, s, e);
    if Helps(s, e) {
      RankNeverRises(row, t, rest);
    } else {
      StillHelp(s, t, events);
      HelpLowersRank(row, t, rest);
    }
  }

  lemma StillHelp(s: Sys, t: Sys, events: seq<Event>)
    requires PointersValid(s) && PointersValid(t) && (HandedOver(t) <==> HandedOver(s))
    requires SomeHelp(s, events) && !Helps(s, events[0])
    ensures SomeHelp(t, events[1..])
  {
    var i :| 0 <= i < |events| && Helps(s, events[i]);
    assert events[1..][i - 1] == events[i];
  }

  lemma {:induction false} RankNeverRises(row: RowValue, s: Sys, events: seq<Event>)
    requires Inv(row, s)
    ensures Runs(row, s, events) && (Returns(row, s, events) || Rank(Run(row, s, events)) <= Rank(s))
    decreases |events|
  {
    RunKeepsInv(row, s, events);
    if events != [] && !s.cpu.CLIENT? {
      StepKeepsInv(row, s, events[0]);
      StepRank(row, s, events[0]);
      RankNeverRises(row, Step(row, s, events[0]), events[1..]);
    }
  }

  function Concat(rounds: seq<seq<Event>>): seq<Event> {
    if rounds == [] then [] else rounds[0] + Concat(rounds[1..])
  }

  lemma {:induction false} RunConcat(row: RowValue, s: Sys, a: seq<Event>, b: seq<Event>)
    requires Inv(row, s)
    ensures Runs(row, s, a + b) && Runs(row, s, a) && Runs(row, Run(row, s, a), b)
    ensures Returns(row, s, a + b) <==> Returns(row, s, a) || Returns(row, Run(row, s, a), b)
    decreases |a|
  {
    RunKeepsInv(row, s, a + b);
    RunKeepsInv(row, s, a);
    RunKeepsInv(row, Run(row, s, a), b);
    if a == [] {
      assert a + b == b;
    } else {
      assert (a + b)[0] == a[0] && (a + b)[1..] == a[1..] + b;
      StepKeepsInv(row, s, a[0]);
      RunConcat(row, Step(row, s, a[0]), a[1..], b);
    }
  }

  /** Under fair scheduling every call returns: as many rounds as its rank, each with a turn for both cores,
      are enough, whatever else they contain. */
  lemma {:induction false} FairRunsReturn(row: RowValue, s: Sys, rounds: seq<seq<Event>>)
    requires Inv(row, s) && |rounds| >= Rank(s) && forall i :: 0 <= i < |rounds| ==> Fair(rounds[i])
    ensures Runs(row, s, Concat(rounds)) && Returns(row, s, Concat(rounds))
    decreases |rounds|
  {
    RunKeepsInv(row, s, Concat(rounds));
    if !s.cpu.CLIENT? {
      RankPositive(s);
      var first, rest := rounds[0], rounds[1..];
      assert Fair(rounds[0]);
      FairHelps(s, first);
      HelpLowersRank(row, s, first);
      RunKeepsInv(row, s, first);
      RunConcat(row, s, first, Concat(rest));
      if !Returns(row, s, first) {
        FairRunsReturn(row, Run(row, s, first), rest);
      }
    }
  }

  lemma RankPositive(s: Sys)
    requires PointersValid(s) && !s.cpu.CLIENT?
    ensures Rank(s) > 0
  {
  }

  lemma FairHelps(s: Sys, events: seq<Event>)
    requires PointersValid(s) && Fair(events)
    ensures SomeHelp(s, events)
  {
    var i :| 0 <= i < |events| && events[i].Cpu?;
    var j :| 0 <= j < |events| && events[j].Emu?;
    assert Helps(s, events[i]) || Helps(s, events[j]);
  }

  /** The bound in numbers: from its first write a call returns within rows + 30 fair rounds. */
  lemma CallBound(s: Sys)
    requires PointersValid(s) && s.cpu.SET_OWNER_CPU?
    ensures Rank(s) == s.call.rows + 30
  {
  }
}
