/** The queue-occupancy pipeline model: its state, its eleven phases and one whole step,
    as functions from state to state.  Instructions are named by their listing index. */
module Pipeline {
  import opened Options

  datatype Domain = Mmio | Memory | Mul | Fp | Branch | Integer

  datatype Kind = Alq | Brq | Mdq | Ioq | Fpq

  datatype Node = SocUart | SocPmem | RaptL1d | RaptIeuMuldiv | RaptFeu | RaptIeu

  /** The part of an instruction that never changes during a run. */
  datatype Insn = Insn(
    domain: Domain, listKernel: bool,
    dest: Option<string>, srcs: seq<string>,
    store: bool, control: bool)

  type Program = seq<Insn>

  const L1D_HIT := 2
  const COMPLETE_REG := 1
  const MMIO_DELAY := 4
  const PMEM_FILL := 8
  const FP_DELAY := 4

  datatype Cfg = Cfg(
    decode: int, rename: int, dispatch: int, commit: int,
    rob: int, rnq: int, uoq: int, integerPorts: int,
    alq: int, brq: int, mdq: int, ioq: int, fpq: int,
    fetchStage: int, mul: int, iqReclaim: bool)

  /** A preset value, where a missing or zero entry falls back to the default. */
  function Preset(values: map<string, int>, key: string, default: int): int {
    if key in values && values[key] != 0 then values[key] else default
  }

  function MakeCfg(values: map<string, int>): Cfg {
    Cfg(
      Preset(values, "decode_width", 2), Preset(values, "rename_width", 2),
      Preset(values, "dispatch_width", 2), Preset(values, "commit_width", 2),
      Preset(values, "rob_entries", 32), Preset(values, "rnq_entries", 8),
      Preset(values, "uoq_entries", 8), Preset(values, "integer_issue_ports", 2),
      Preset(values, "alq_entries", 8), Preset(values, "brq_entries", 8),
      Preset(values, "mdq_entries", 4), Preset(values, "ioq_entries", 8),
      Preset(values, "fpq_entries", 1), Preset(values, "fetch_response_stage", 0),
      if Preset(values, "m_fast", 0) != 0 then 2 else 3,
      Preset(values, "iq_reclaim_on_issue", 0) != 1)
  }

  function Max(a: int, b: int): int { if a < b then b else a }

  function Min(a: int, b: int): int { if a < b then a else b }

  /** How many of `available` items fit: never negative, at most width and room. */
  function Fit(available: nat, width: int, room: int): nat {
    Max(0, Min(available, Min(width, room)))
  }

  function ExecSpec(insn: Insn, c: Cfg): (Node, int) {
    match insn.domain
    case Mmio => (SocUart, MMIO_DELAY)
    case Memory => if insn.listKernel then (SocPmem, PMEM_FILL) else (RaptL1d, L1D_HIT)
    case Mul => (RaptIeuMuldiv, c.mul)
    case Fp => (RaptFeu, FP_DELAY)
    case _ => (RaptIeu, 1)
  }

  function IqKind(domain: Domain): Kind {
    match domain
    case Memory => Ioq
    case Mmio => Ioq
    case Mul => Mdq
    case Branch => Brq
    case Fp => Fpq
    case Integer => Alq
  }

  function Ports(c: Cfg, k: Kind): int {
    if k == Alq then c.integerPorts else 1
  }

  function IqCap(c: Cfg, k: Kind): int {
    match k
    case Alq => c.alq
    case Brq => c.brq
    case Mdq => c.mdq
    case Ioq => c.ioq
    case Fpq => c.fpq
  }

  // ---------- Instruction lookups, total so that they need no side conditions ----------

  predicate IsStore(p: Program, i: nat) { i < |p| && p[i].store }

  predicate IsControl(p: Program, i: nat) { i < |p| && p[i].control }

  function KindOf(p: Program, i: nat): Kind {
    if i < |p| then IqKind(p[i].domain) else Alq
  }

  function DestOf(p: Program, i: nat): Option<string> {
    if i < |p| then p[i].dest else None
  }

  /** The unit an instruction executes on and how long it stays there. */
  function Timing(p: Program, c: Cfg, i: nat): (Node, int) {
    if i < |p| then (ExecSpec(p[i], c).0, Max(ExecSpec(p[i], c).1, 1)) else (RaptIeu, 1)
  }

  // ---------- State ----------

  /** The in-order part: what has been fetched, from the L1I to the retired list. */
  datatype Line = Line(
    fetchI: nat, l1i: seq<(nat, int)>,
    ifu: seq<nat>, fqu: seq<nat>, idu: seq<nat>, rnu: seq<nat>, uoq: seq<nat>, rob: seq<nat>,
    committed: seq<nat>, retired: set<nat>)  // `retired` holds the indices whose `committed` flag is set

  /** The five issue queues. */
  datatype Queues = Queues(alq: seq<nat>, brq: seq<nat>, mdq: seq<nat>, ioq: seq<nat>, fpq: seq<nat>) {
    function Get(k: Kind): seq<nat> {
      match k
      case Alq => alq
      case Brq => brq
      case Mdq => mdq
      case Ioq => ioq
      case Fpq => fpq
    }

    function With(k: Kind, q: seq<nat>): (r: Queues)
      ensures forall j: Kind :: r.Get(j) == if j == k then q else Get(j)
    {
      match k
      case Alq => this.(alq := q)
      case Brq => this.(brq := q)
      case Mdq => this.(mdq := q)
      case Ioq => this.(ioq := q)
      case Fpq => this.(fpq := q)
    }
  }

  /** The out-of-order tables; `issued` holds the indices whose `issued` flag is set and
      `iqOf` the `iq` field of each index, where it is not None. */
  datatype Tables = Tables(
    executing: map<nat, (Node, int)>, completing: map<nat, int>, done: set<nat>,
    issued: set<nat>, iqOf: map<nat, Kind>)

  datatype State = State(
    cycle: int, line: Line, iqs: Queues, tab: Tables,
    reclaim: map<Kind, nat>, readyAt: map<string, int>)
  {
    function Reclaimed(k: Kind): nat {
      if k in reclaim then reclaim[k] else 0
    }
  }

  const START := State(
    0, Line(0, [], [], [], [], [], [], [], [], {}), Queues([], [], [], [], []),
    Tables(map[], map[], {}, {}, map[]), map[], map[])

  // ---------- The phases of a step ----------

  /** How many entries of the ROB retire, given that the first n already have. */
  function RetireCount(p: Program, c: Cfg, rob: seq<nat>, done: set<nat>, n: nat): (k: nat)
    requires n <= |rob|
    ensures n <= k <= |rob|
    decreases |rob| - n
  {
    if n == |rob| || n >= c.commit || rob[n] !in done then n
    else if IsStore(p, rob[n]) then (if n > 0 then n else 1)
    else if IsControl(p, rob[n]) then n + 1
    else RetireCount(p, c, rob, done, n + 1)
  }

  function ToSet(q: seq<nat>): set<nat> { set i | i in q }

  function Commit(p: Program, c: Cfg, s: State): State {
    var k := RetireCount(p, c, s.line.rob, s.tab.done, 0);
    s.(line := s.line.(
      rob := s.line.rob[k..],
      committed := s.line.committed + s.line.rob[..k],
      retired := s.line.retired + ToSet(s.line.rob[..k])))
  }

  function Arrived(completing: map<nat, int>, cycle: int): set<nat> {
    set i | i in completing && completing[i] <= cycle
  }

  function Dests(p: Program, who: set<nat>): set<string> {
    set i | i in who && DestOf(p, i).Some? :: DestOf(p, i).value
  }

  /** The map that gives every key the same value. */
  ghost function Constant<K, V>(keys: set<K>, v: V): (m: map<K, V>)
    ensures m.Keys == keys && forall k | k in keys :: m[k] == v
    decreases keys
  {
    if keys == {} then map[] else var k :| k in keys; Constant(keys - {k}, v)[k := v]
  }

  ghost function Complete(p: Program, s: State): State {
    var arrived := Arrived(s.tab.completing, s.cycle);
    s.(tab := s.tab.(completing := s.tab.completing - arrived, done := s.tab.done + arrived),
       readyAt := s.readyAt + Constant(Dests(p, arrived), s.cycle))
  }

  function Finished(executing: map<nat, (Node, int)>): set<nat> {
    set i | i in executing && executing[i].1 <= 1
  }

  /** Every execution with more than one cycle left, one cycle later. */
  ghost function Countdown(executing: map<nat, (Node, int)>): (r: map<nat, (Node, int)>)
    ensures forall i: nat :: i in r <==> i in executing && executing[i].1 > 1
    ensures forall i: nat :: i in r ==> r[i] == (executing[i].0, executing[i].1 - 1)
    decreases executing.Keys
  {
    if executing == map[] then map[]
    else
      var i :| i in executing;
      var rest := Countdown(executing - {i});
      if executing[i].1 > 1 then rest[i := (executing[i].0, executing[i].1 - 1)] else rest
  }

  ghost function Execute(s: State): State {
    s.(tab := s.tab.(
      executing := Countdown(s.tab.executing),
      completing := s.tab.completing + Constant(Finished(s.tab.executing), s.cycle + COMPLETE_REG)))
  }

  predicate SrcsReady(p: Program, s: State, i: nat) {
    i < |p| ==> forall r | r in p[i].srcs ::
      r == "zero" || r == "x0" || r !in s.readyAt || s.readyAt[r] <= s.cycle
  }

  /** The entries that issue and the entries kept, scanning a queue with `ports` left. */
  function IssuePick(p: Program, s: State, q: seq<nat>, ports: int): (seq<nat>, seq<nat>) {
    if q == [] then ([], [])
    else if ports > 0 && SrcsReady(p, s, q[0]) then
      var rest := IssuePick(p, s, q[1..], ports - 1);
      ([q[0]] + rest.0, rest.1)
    else
      var rest := IssuePick(p, s, q[1..], ports);
      (rest.0, [q[0]] + rest.1)
  }

  /** The instructions that start executing, with their full delays. */
  ghost function Started(p: Program, c: Cfg, gone: set<nat>): (m: map<nat, (Node, int)>)
    ensures m.Keys == gone && forall i | i in gone :: m[i] == Timing(p, c, i)
    decreases gone
  {
    if gone == {} then map[] else var i :| i in gone; Started(p, c, gone - {i})[i := Timing(p, c, i)]
  }

  ghost function IssueEffect(p: Program, c: Cfg, s: State, k: Kind, gone: set<nat>, count: nat, keep: seq<nat>): State {
    s.(iqs := s.iqs.With(k, keep),
       tab := s.tab.(executing := s.tab.executing + Started(p, c, gone), issued := s.tab.issued + gone),
       reclaim := if c.iqReclaim && count > 0 then s.reclaim[k := s.Reclaimed(k) + count] else s.reclaim)
  }

  ghost function IssueKind(p: Program, c: Cfg, s: State, k: Kind): State {
    var pick := IssuePick(p, s, s.iqs.Get(k), Ports(c, k));
    IssueEffect(p, c, s, k, ToSet(pick.0), |pick.0|, pick.1)
  }

  const ISSUE_ORDER := [Alq, Brq, Mdq, Ioq, Fpq]

  ghost function IssueOver(p: Program, c: Cfg, s: State, kinds: seq<Kind>): State
    decreases |kinds|
  {
    if kinds == [] then s else IssueOver(p, c, IssueKind(p, c, s, kinds[0]), kinds[1..])
  }

  ghost function Issue(p: Program, c: Cfg, s: State): State { IssueOver(p, c, s, ISSUE_ORDER) }

  predicate Undispatched(tab: Tables, i: nat) {
    i !in tab.issued && i !in tab.executing && i !in tab.completing && i !in tab.done && i !in tab.iqOf
  }

  function Pending(tab: Tables, rob: seq<nat>): (r: seq<nat>)
    ensures forall i :: i in r <==> i in rob && Undispatched(tab, i)
  {
    if rob == [] then []
    else (if Undispatched(tab, rob[0]) then [rob[0]] else []) + Pending(tab, rob[1..])
  }

  predicate Full(c: Cfg, s: State, k: Kind) {
    |s.iqs.Get(k)| + s.Reclaimed(k) >= IqCap(c, k)
  }

  function DispatchOne(p: Program, s: State, i: nat): State {
    var k := KindOf(p, i);
    s.(iqs := s.iqs.With(k, s.iqs.Get(k) + [i]), tab := s.tab.(iqOf := s.tab.iqOf[i := k]))
  }

  function DispatchOver(p: Program, c: Cfg, s: State, pending: seq<nat>, width: int): State
    decreases |pending|
  {
    if pending == [] || width <= 0 then s
    else if Full(c, s, KindOf(p, pending[0])) then DispatchOver(p, c, s, pending[1..], width)
    else DispatchOver(p, c, DispatchOne(p, s, pending[0]), pending[1..], width - 1)
  }

  function Dispatch(p: Program, c: Cfg, s: State): State {
    DispatchOver(p, c, s, Pending(s.tab, s.line.rob), c.dispatch).(reclaim := map[])
  }

  function Allocate(c: Cfg, s: State): State {
    var k := Fit(|s.line.uoq|, c.dispatch, c.rob - |s.line.rob|);
    s.(line := s.line.(uoq := s.line.uoq[k..], rob := s.line.rob + s.line.uoq[..k]),
       tab := s.tab.(iqOf := s.tab.iqOf - ToSet(s.line.uoq[..k])))
  }

  function Rename(c: Cfg, l: Line): Line {
    var k := Fit(|l.rnu|, c.rename, c.uoq - |l.uoq|);
    l.(rnu := l.rnu[k..], uoq := l.uoq + l.rnu[..k])
  }

  function Decode(c: Cfg, l: Line): Line {
    var k := Fit(|l.idu|, c.decode, c.rnq - |l.rnu|);
    l.(idu := l.idu[k..], rnu := l.rnu + l.idu[..k])
  }

  function IntoIdu(c: Cfg, l: Line): Line {
    var k := Fit(|l.fqu|, c.decode, c.decode - |l.idu|);
    l.(fqu := l.fqu[k..], idu := l.idu + l.fqu[..k])
  }

  function IntoFqu(c: Cfg, l: Line): Line {
    var k := Fit(|l.ifu|, c.decode, 2 * c.decode - |l.fqu|);
    l.(ifu := l.ifu[k..], fqu := l.fqu + l.ifu[..k])
  }

  /** How many leading L1I responses have arrived by the given cycle. */
  function Responded(l1i: seq<(nat, int)>, cycle: int): (k: nat)
    ensures k <= |l1i|
    ensures forall j | 0 <= j < k :: l1i[j].1 <= cycle
    ensures k < |l1i| ==> l1i[k].1 > cycle
  {
    if l1i == [] || l1i[0].1 > cycle then 0 else 1 + Responded(l1i[1..], cycle)
  }

  function Indices(l1i: seq<(nat, int)>): (r: seq<nat>)
    ensures |r| == |l1i|
    ensures forall j | 0 <= j < |r| :: r[j] == l1i[j].0
  {
    seq(|l1i|, j requires 0 <= j < |l1i| => l1i[j].0)
  }

  function Respond(c: Cfg, cycle: int, l: Line): Line {
    var k := Fit(Responded(l.l1i, cycle), c.decode - |l.ifu|, c.decode - |l.ifu|);
    l.(l1i := l.l1i[k..], ifu := l.ifu + Indices(l.l1i[..k]))
  }

  function Request(p: Program, c: Cfg, cycle: int, l: Line): Line {
    var k := Fit(Max(0, |p| - l.fetchI), c.decode - |l.l1i|, c.decode - |l.l1i|);
    l.(l1i := l.l1i + seq(k, j requires 0 <= j < k => (l.fetchI + j, cycle + 1 + c.fetchStage)),
       fetchI := l.fetchI + k)
  }

  function Fetch(p: Program, c: Cfg, cycle: int, l: Line): Line {
    Request(p, c, cycle, Respond(c, cycle, l))
  }

  function DecodeHalf(c: Cfg, l: Line): Line { IntoIdu(c, Decode(c, Rename(c, l))) }

  function FetchHalf(p: Program, c: Cfg, cycle: int, l: Line): Line { Fetch(p, c, cycle, IntoFqu(c, l)) }

  // ---------- One step and whole runs ----------

  /** The phases that touch instructions inside the ROB. */
  ghost function BackEnd(p: Program, c: Cfg, s: State): State {
    Dispatch(p, c, Issue(p, c, Execute(Complete(p, Commit(p, c, s)))))
  }

  /** The phases that move instructions towards the ROB. */
  function FrontEnd(p: Program, c: Cfg, cycle: int, l: Line): Line {
    FetchHalf(p, c, cycle, DecodeHalf(c, l))
  }

  ghost function Step(p: Program, c: Cfg, s: State): State {
    var t := Allocate(c, BackEnd(p, c, s));
    t.(line := FrontEnd(p, c, t.cycle, t.line), cycle := t.cycle + 1)
  }

  ghost function Run(p: Program, c: Cfg, s: State, n: nat): State
    decreases n
  {
    if n == 0 then s else Step(p, c, Run(p, c, s, n - 1))
  }

  predicate AllRetired(p: Program, s: State) {
    forall i: nat | i < |p| :: i in s.line.retired
  }

  predicate Drained(p: Program, s: State) {
    && s.line.fetchI >= |p|
    && s.line.l1i == [] && s.line.ifu == [] && s.line.fqu == [] && s.line.idu == []
    && s.line.rnu == [] && s.line.uoq == [] && s.line.rob == []
    && s.tab.executing == map[] && s.tab.completing == map[]
    && AllRetired(p, s)
  }
}
