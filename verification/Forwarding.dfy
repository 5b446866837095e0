/** The forwarding runtime of one tunnel: an acceptor, up to 64 workers and the deferred
    cleanup share a table of tracked connections. Every step is one action of one
    goroutine between two points where others can run. */
module Forwarding {
  import opened Outcomes

  const SLOTS := 64

  /** The goroutine whose job it is to release a connection. */
  datatype Holder = TheAcceptor | TheWorker(w: nat) | Nobody

  /** A connection and its close-once guard: `once` is the guard, `closes` counts calls of
      the connection's own Close, `tracked` is membership in the runtime's table. */
  datatype Conn = Conn(once: bool, closes: nat, tracked: bool, holder: Holder) {
    function Close(): Conn {
      if once then this else Conn(true, closes + 1, tracked, holder)
    }
  }

  datatype Acceptor =
    | NotStarted
    | Accepting
    | Got(c: nat, failed: bool)        // accepted, not tracked yet
    | SawStop(c: nat, failed: bool)    // tracked, context seen cancelled under the lock
    | Has(c: nat, failed: bool)        // tracked
    | Releasing(c: nat, last: bool)    // about to close it
    | Erasing(c: nat, last: bool)      // closed, about to leave the table
    | Ended

  datatype Worker =
    | Dialing(src: nat)
    | Opened(src: nat, dst: nat)       // destination not tracked yet
    | SawStopToo(src: nat, dst: nat)   // destination tracked, context seen cancelled
    | Copying(src: nat, dst: nat)
    | ReleasingDst(src: nat, dst: nat)
    | ErasingDst(src: nat, dst: nat)
    | ReleasingSrc(src: nat)
    | ErasingSrc(src: nat)
    | HasSlot(src: nat)                // source gone, slot still held
    | NoSlot(src: nat)                 // slot freed, not yet done

  datatype Main =
    | Serving
    | CleaningUp
    | Snapshotted(pending: set<nat>)   // closers for the snapshot are running
    | AcceptorJoined(pending: set<nat>)
    | WorkersJoined(pending: set<nat>)
    | Returned

  datatype Runtime = Runtime(
    conns: map<nat, Conn>, acceptor: Acceptor, workers: map<nat, Worker>, slots: nat, cancelled: bool,
    remote: bool, main: Main)

  function Start(remote: bool): Runtime {
    Runtime(map[], NotStarted, map[], 0, false, remote, Serving)
  }

  datatype Step =
    | Cancel
    | StartAcceptor
    | Accept(c: nat)
    | AcceptFails(c: nat, withConn: bool)
    | AcceptorMoves
    | Spawn(w: nat)
    | Overflow
    | Dialed(w: nat, c: nat)
    | DialFailed(w: nat)
    | WorkerCloses(w: nat, src: bool)
    | WorkerMoves(w: nat)
    | MainMoves
    | CleanupCloses(c: nat)

  function Closed(s: Runtime, c: nat): map<nat, Conn>
    requires c in s.conns
  {
    s.conns[c := s.conns[c].Close()]
  }

  function Tracked(s: Runtime, c: nat): map<nat, Conn>
    requires c in s.conns
  {
    s.conns[c := s.conns[c].(tracked := true)]
  }

  function Erased(s: Runtime, c: nat): map<nat, Conn>
    requires c in s.conns
  {
    s.conns[c := s.conns[c].(tracked := false, holder := Nobody)]
  }

  function Passed(s: Runtime, c: nat, w: nat): map<nat, Conn>
    requires c in s.conns
  {
    s.conns[c := s.conns[c].(holder := TheWorker(w))]
  }

  /** What the acceptor does next with the connection in its hands. Choosing between a
      slot and the overflow path is a step of its own. */
  ghost predicate AcceptorStep(s: Runtime, t: Runtime) {
    match s.acceptor
    case Got(c, failed) =>
      c in s.conns &&
        t == s.(conns := Tracked(s, c), acceptor := if s.cancelled then SawStop(c, failed) else Has(c, failed))
    case SawStop(c, failed) =>
      c in s.conns && t == s.(conns := Closed(s, c), acceptor := Releasing(c, failed || !s.remote))
    case Has(c, failed) =>
      (failed || s.cancelled) && t == s.(acceptor := Releasing(c, failed || !s.remote))
    case Releasing(c, last) =>
      c in s.conns && t == s.(conns := Closed(s, c), acceptor := Erasing(c, last))
    case Erasing(c, last) =>
      c in s.conns && t == s.(conns := Erased(s, c), acceptor := if last then Ended else Accepting,
                              cancelled := s.cancelled || last)
    case _ => false
  }

  ghost predicate WorkerStep(s: Runtime, w: nat, t: Runtime)
    requires w in s.workers
  {
    match s.workers[w]
    case Opened(src, dst) =>
      dst in s.conns && t == s.(conns := Tracked(s, dst),
        workers := s.workers[w := if s.cancelled then SawStopToo(src, dst) else Copying(src, dst)])
    case SawStopToo(src, dst) =>
      dst in s.conns && t == s.(conns := Closed(s, dst), workers := s.workers[w := Copying(src, dst)])
    case Copying(src, dst) =>
      t == s.(workers := s.workers[w := ReleasingDst(src, dst)])
    case ReleasingDst(src, dst) =>
      dst in s.conns && t == s.(conns := Closed(s, dst), workers := s.workers[w := ErasingDst(src, dst)])
    case ErasingDst(src, dst) =>
      dst in s.conns && t == s.(conns := Erased(s, dst), workers := s.workers[w := ReleasingSrc(src)])
    case ReleasingSrc(src) =>
      src in s.conns && t == s.(conns := Closed(s, src), workers := s.workers[w := ErasingSrc(src)])
    case ErasingSrc(src) =>
      src in s.conns && t == s.(conns := Erased(s, src), workers := s.workers[w := HasSlot(src)])
    case HasSlot(src) =>
      s.slots > 0 && t == s.(slots := s.slots - 1, workers := s.workers[w := NoSlot(src)])
    case NoSlot(_) =>
      t == s.(workers := s.workers - {w})
    case Dialing(_) => false
  }

  ghost predicate MainStep(s: Runtime, t: Runtime) {
    match s.main
    case Serving => (s.cancelled || s.acceptor.NotStarted?) && t == s.(cancelled := true, main := CleaningUp)
    case CleaningUp => t == s.(main := Snapshotted(set c | c in s.conns && s.conns[c].tracked))
    case Snapshotted(pending) =>
      (s.acceptor.Ended? || s.acceptor.NotStarted?) && t == s.(main := AcceptorJoined(pending))
    case AcceptorJoined(pending) => s.workers == map[] && t == s.(main := WorkersJoined(pending))
    case WorkersJoined(pending) => pending == {} && t == s.(main := Returned)
    case Returned => false
  }

  function Pending(m: Main): set<nat> {
    match m
    case Snapshotted(pending) => pending
    case AcceptorJoined(pending) => pending
    case WorkersJoined(pending) => pending
    case _ => {}
  }

  function WithPending(m: Main, pending: set<nat>): Main {
    match m
    case Snapshotted(_) => Snapshotted(pending)
    case AcceptorJoined(_) => AcceptorJoined(pending)
    case WorkersJoined(_) => WorkersJoined(pending)
    case _ => m
  }

  function New(holder: Holder): Conn {
    Conn(false, 0, false, holder)
  }

  /** One step of one goroutine. New connections are new objects. */
  ghost predicate Next(s: Runtime, step: Step, t: Runtime) {
    match step
    case Cancel => t == s.(cancelled := true)
    case StartAcceptor => s.main.Serving? && s.acceptor.NotStarted? && t == s.(acceptor := Accepting)
    case Accept(c) =>
      s.acceptor.Accepting? && c !in s.conns &&
        t == s.(conns := s.conns[c := New(TheAcceptor)], acceptor := Got(c, false))
    case AcceptFails(c, withConn) =>
      s.acceptor.Accepting? &&
      if withConn then c !in s.conns && t == s.(conns := s.conns[c := New(TheAcceptor)], acceptor := Got(c, true))
      else t == s.(acceptor := Ended, cancelled := true)
    case AcceptorMoves => AcceptorStep(s, t)
    case Spawn(w) =>
      s.acceptor.Has? && !s.acceptor.failed && s.slots < SLOTS && w !in s.workers && s.acceptor.c in s.conns &&
      t == s.(slots := s.slots + 1, workers := s.workers[w := Dialing(s.acceptor.c)], acceptor := Accepting,
              conns := Passed(s, s.acceptor.c, w))
    case Overflow =>
      s.acceptor.Has? && !s.acceptor.failed && s.slots >= SLOTS && t == s.(acceptor := Releasing(s.acceptor.c, false))
    case Dialed(w, c) =>
      w in s.workers && s.workers[w].Dialing? && c !in s.conns &&
      t == s.(conns := s.conns[c := New(TheWorker(w))], workers := s.workers[w := Opened(s.workers[w].src, c)])
    case DialFailed(w) =>
      w in s.workers && s.workers[w].Dialing? && t == s.(workers := s.workers[w := ReleasingSrc(s.workers[w].src)])
    case WorkerCloses(w, src) =>
      w in s.workers && s.workers[w].Copying? &&
      var c := if src then s.workers[w].src else s.workers[w].dst;
      c in s.conns && t == s.(conns := Closed(s, c))
    case WorkerMoves(w) => w in s.workers && WorkerStep(s, w, t)
    case MainMoves => MainStep(s, t)
    case CleanupCloses(c) =>
      c in Pending(s.main) && c in s.conns &&
        t == s.(conns := Closed(s, c), main := WithPending(s.main, Pending(s.main) - {c}))
  }

  // ----------------------------------------------------------------- ownership

  function AcceptorHolds(a: Acceptor): set<nat> {
    if a.Got? || a.SawStop? || a.Has? || a.Releasing? || a.Erasing? then {a.c} else {}
  }

  function WorkerHolds(w: Worker): set<nat> {
    if w.HasSlot? || w.NoSlot? then {}
    else if w.Dialing? || w.ReleasingSrc? || w.ErasingSrc? then {w.src}
    else {w.src, w.dst}
  }

  /** What is true of a connection in its holder's hands. A connection nobody holds is
      closed and out of the table. After the cleanup's snapshot, an open tracked connection
      is in the snapshot, or its holder saw the cancelled context when tracking it. */
  ghost predicate ConnOk(s: Runtime, c: nat)
    requires c in s.conns
  {
    var k := s.conns[c];
    && k.closes == (if k.once then 1 else 0)
    && match k.holder
       case Nobody => k.once && !k.tracked
       case TheAcceptor =>
         && c in AcceptorHolds(s.acceptor)
         && (s.acceptor.Got? <==> !k.tracked)
         && (s.acceptor.Got? ==> !k.once && c !in Pending(s.main))
         && (s.acceptor.Erasing? ==> k.once)
         && (Snapshot(s.main) && k.tracked && !k.once ==> c in Pending(s.main) || s.acceptor.SawStop?)
       case TheWorker(w) =>
         && w in s.workers && c in WorkerHolds(s.workers[w])
         && var p := s.workers[w];
         && (p.Opened? && c == p.dst <==> !k.tracked)
         && (p.Opened? && c == p.dst ==> !k.once && c !in Pending(s.main))
         && ((p.ErasingDst? && c == p.dst) || p.ErasingSrc? ==> k.once)
         && (Snapshot(s.main) && k.tracked && !k.once ==> c in Pending(s.main) || (p.SawStopToo? && c == p.dst))
  }

  ghost predicate ConnsOk(s: Runtime) {
    forall c | c in s.conns :: ConnOk(s, c)
  }

  predicate AcceptorOk(s: Runtime) {
    && (forall c | c in AcceptorHolds(s.acceptor) :: c in s.conns && s.conns[c].holder == TheAcceptor)
    && (s.acceptor.SawStop? || s.acceptor.Ended? ==> s.cancelled)
  }

  predicate WorkerOk(s: Runtime, w: nat)
    requires w in s.workers
  {
    var p := s.workers[w];
    && (forall c | c in WorkerHolds(p) :: c in s.conns && s.conns[c].holder == TheWorker(w))
    && (p.Opened? || p.SawStopToo? || p.Copying? || p.ReleasingDst? || p.ErasingDst? ==> p.src != p.dst)
    && (p.HasSlot? || p.NoSlot? ==> p.src in s.conns && s.conns[p.src].holder.Nobody?)
  }

  ghost predicate WorkersOk(s: Runtime) {
    forall w | w in s.workers :: WorkerOk(s, w)
  }

  predicate Snapshot(m: Main) {
    !m.Serving? && !m.CleaningUp?
  }

  function SlotHolders(s: Runtime): set<nat> {
    set w | w in s.workers && !s.workers[w].NoSlot?
  }

  ghost predicate SlotsCount(s: Runtime) {
    s.slots == |SlotHolders(s)| <= SLOTS
  }

  /** How far the cleanup has come. */
  ghost predicate CleanupOrder(s: Runtime) {
    && (!s.main.Serving? ==> s.cancelled)
    && (s.acceptor.Ended? ==> s.cancelled)
    && (s.main.AcceptorJoined? || s.main.WorkersJoined? || s.main.Returned? ==>
         s.acceptor.Ended? || s.acceptor.NotStarted?)
    && (s.main.WorkersJoined? || s.main.Returned? ==> s.workers == map[])
    && (s.acceptor.NotStarted? ==> s.workers == map[] && s.conns == map[])
    && Pending(s.main) <= s.conns.Keys
  }

  ghost predicate Inv(s: Runtime) {
    ConnsOk(s) && AcceptorOk(s) && WorkersOk(s) && SlotsCount(s) && CleanupOrder(s)
  }

  lemma InitInv(remote: bool)
    ensures Inv(Start(remote))
  {
  }

  lemma {:induction false} NextInv(s: Runtime, step: Step, t: Runtime)
    requires Inv(s) && Next(s, step, t)
    ensures Inv(t)
  {
    hide Inv, AcceptorStep, WorkerStep, MainStep;
    match step {
      case AcceptorMoves => AcceptorKeeps(s, t);
      case WorkerMoves(w) => WorkerKeeps(s, w, t);
      case MainMoves => MainKeeps(s, t);
      case Accept(c) => ArrivalKeeps(s, step, t);
      case AcceptFails(c, withConn) => ArrivalKeeps(s, step, t);
      case Spawn(w) => SpawnKeeps(s, w, t);
      case Dialed(w, c) => DialKeeps(s, step, t);
      case DialFailed(w) => DialKeeps(s, step, t);
      case WorkerCloses(w, src) => CloseKeeps(s, step, t);
      case CleanupCloses(c) => CloseKeeps(s, step, t);
      case _ => QuietKeeps(s, step, t);
    }
  }

  lemma EveryConn(s: Runtime, c: nat)
    requires ConnsOk(s) && c in s.conns
    ensures ConnOk(s, c)
  {
  }

  lemma EveryWorker(s: Runtime, w: nat)
    requires WorkersOk(s) && w in s.workers
    ensures WorkerOk(s, w)
  {
  }

  /** Slots are counted by the workers that hold one. */
  lemma SameSlots(s: Runtime, t: Runtime)
    requires SlotsCount(s) && t.slots == s.slots && SlotHolders(t) == SlotHolders(s)
    ensures SlotsCount(t)
  {
  }

  /** A connection stays as it was if it, its holder and the table's clean-up do. */
  lemma Untouched(s: Runtime, t: Runtime, c: nat)
    requires c in s.conns && ConnOk(s, c) && c in t.conns && t.conns[c] == s.conns[c]
    requires s.conns[c].holder.TheAcceptor? ==> t.acceptor == s.acceptor
    requires s.conns[c].holder.TheWorker? ==>
      var w := s.conns[c].holder.w; w in s.workers && w in t.workers && t.workers[w] == s.workers[w]
    requires t.main == s.main
    ensures ConnOk(t, c)
  {
  }

  /** So does a worker if nothing it holds changes hands. */
  lemma WorkerStays(s: Runtime, t: Runtime, w: nat)
    requires w in s.workers && WorkerOk(s, w) && w in t.workers && t.workers[w] == s.workers[w]
    requires forall c | c in s.conns :: c in t.conns && (t.conns[c].holder == s.conns[c].holder ||
                                                         !(s.conns[c].holder in {TheWorker(w), Nobody}))
    ensures WorkerOk(t, w)
  {
  }

  // ------------------------------------------------------------- the acceptor moves

  lemma {:induction false} AcceptorKeeps(s: Runtime, t: Runtime)
    requires Inv(s) && AcceptorStep(s, t)
    ensures Inv(t)
  {
    hide SlotsCount, ConnsOk, WorkersOk, CleanupOrder, AcceptorOk, ConnOk;
    assert SlotHolders(t) == SlotHolders(s);
    SameSlots(s, t);
    AcceptorConns(s, t);
    AcceptorHolders(s, t);
  }

  lemma {:induction false} AcceptorConns(s: Runtime, t: Runtime)
    requires ConnsOk(s) && AcceptorOk(s) && CleanupOrder(s) && AcceptorStep(s, t)
    ensures ConnsOk(t)
  {
    hide ConnOk, AcceptorOk, CleanupOrder;
    forall c | c in t.conns ensures ConnOk(t, c) {
      EveryConn(s, c);
      if s.conns[c].holder.TheAcceptor? { AcceptorConn(s, t, c); } else { NotTheAcceptors(s, t, c); }
    }
  }

  lemma AcceptorConn(s: Runtime, t: Runtime, c: nat)
    requires c in s.conns && ConnOk(s, c) && AcceptorStep(s, t) && s.conns[c].holder.TheAcceptor? && CleanupOrder(s)
    ensures c in t.conns && ConnOk(t, c)
  {
  }

  lemma NotTheAcceptors(s: Runtime, t: Runtime, c: nat)
    requires c in s.conns && ConnOk(s, c) && AcceptorOk(s) && AcceptorStep(s, t) && !s.conns[c].holder.TheAcceptor?
    ensures c in t.conns && ConnOk(t, c)
  {
    assert c !in AcceptorHolds(s.acceptor);
    hide ConnOk, AcceptorOk;
    HolderStands(s, c);
    Untouched(s, t, c);
  }

  lemma HolderStands(s: Runtime, c: nat)
    requires c in s.conns && ConnOk(s, c)
    ensures s.conns[c].holder.TheWorker? ==> s.conns[c].holder.w in s.workers
  {
  }

  lemma {:induction false} AcceptorHolders(s: Runtime, t: Runtime)
    requires AcceptorOk(s) && WorkersOk(s) && CleanupOrder(s) && AcceptorStep(s, t)
    ensures AcceptorOk(t) && WorkersOk(t) && CleanupOrder(t)
  {
    hide WorkersOk, WorkerOk;
    AcceptorSparesWorkers(s, t);
  }

  lemma AcceptorSparesWorkers(s: Runtime, t: Runtime)
    requires WorkersOk(s) && AcceptorOk(s) && AcceptorStep(s, t)
    ensures WorkersOk(t)
  {
    hide WorkerOk;
    forall w | w in t.workers ensures WorkerOk(t, w) {
      EveryWorker(s, w);
      WorkerStays(s, t, w);
    }
  }

  // ----------------------------------------------------------------- a worker moves

  lemma {:induction false} WorkerKeeps(s: Runtime, w: nat, t: Runtime)
    requires Inv(s) && w in s.workers && WorkerStep(s, w, t)
    ensures Inv(t)
  {
    hide SlotsCount, ConnsOk, WorkersOk, CleanupOrder, AcceptorOk, WorkerStep;
    EveryWorker(s, w);
    WorkerSlots(s, w, t);
    WorkerConns(s, w, t);
    WorkerHolders(s, w, t);
  }

  lemma WorkerSlots(s: Runtime, w: nat, t: Runtime)
    requires SlotsCount(s) && w in s.workers && WorkerStep(s, w, t)
    ensures SlotsCount(t)
  {
    hide SlotsCount, SlotHolders;
    if s.workers[w].HasSlot? {
      SlotFreed(s, w, t);
    } else {
      SlotKept(s, w, t);
      SameSlots(s, t);
    }
  }

  lemma SlotFreed(s: Runtime, w: nat, t: Runtime)
    requires SlotsCount(s) && w in s.workers && s.workers[w].HasSlot? && WorkerStep(s, w, t)
    ensures SlotsCount(t)
  {
    assert SlotHolders(t) == SlotHolders(s) - {w};
  }

  lemma SlotKept(s: Runtime, w: nat, t: Runtime)
    requires w in s.workers && !s.workers[w].HasSlot? && WorkerStep(s, w, t)
    ensures SlotHolders(t) == SlotHolders(s)
  {
    hide WorkerStep;
    WorkersAside(s, w, t);
    SlotOfWorker(s, w, t);
  }

  lemma WorkersAside(s: Runtime, w: nat, t: Runtime)
    requires w in s.workers && WorkerStep(s, w, t)
    ensures forall v | v != w :: v in t.workers <==> v in s.workers
    ensures forall v | v in s.workers && v != w :: t.workers[v] == s.workers[v]
  {
  }

  lemma SlotOfWorker(s: Runtime, w: nat, t: Runtime)
    requires w in s.workers && !s.workers[w].HasSlot? && WorkerStep(s, w, t)
    ensures if w in t.workers then t.workers[w].NoSlot? == s.workers[w].NoSlot? else s.workers[w].NoSlot?
  {
  }

  lemma {:induction false} WorkerConns(s: Runtime, w: nat, t: Runtime)
    requires ConnsOk(s) && w in s.workers && WorkerOk(s, w) && CleanupOrder(s) && WorkerStep(s, w, t)
    ensures ConnsOk(t)
  {
    hide ConnOk, WorkerOk, CleanupOrder;
    forall c | c in t.conns ensures ConnOk(t, c) {
      SameConns(s, w, t);
      EveryConn(s, c);
      if s.conns[c].holder == TheWorker(w) { WorkerConn(s, w, t, c); } else { NotTheWorkers(s, w, t, c); }
    }
  }

  lemma SameConns(s: Runtime, w: nat, t: Runtime)
    requires w in s.workers && WorkerStep(s, w, t)
    ensures t.conns.Keys == s.conns.Keys
  {
  }

  lemma WorkerConn(s: Runtime, w: nat, t: Runtime, c: nat)
    requires w in s.workers && WorkerOk(s, w) && CleanupOrder(s) && WorkerStep(s, w, t)
    requires c in s.conns && ConnOk(s, c) && s.conns[c].holder == TheWorker(w)
    ensures c in t.conns && ConnOk(t, c)
  {
    hide WorkerStep, ConnOk, WorkerOk, CleanupOrder;
    var p := s.workers[w];
    if p.Opened? || p.SawStopToo? || p.Copying? { OpenConn(s, w, t, c); }
    else if p.ReleasingDst? || p.ErasingDst? { DestinationConn(s, w, t, c); }
    else { SourceConn(s, w, t, c); }
  }

  lemma OpenConn(s: Runtime, w: nat, t: Runtime, c: nat)
    requires w in s.workers && WorkerOk(s, w) && CleanupOrder(s) && WorkerStep(s, w, t)
    requires c in s.conns && ConnOk(s, c) && s.conns[c].holder == TheWorker(w)
    requires s.workers[w].Opened? || s.workers[w].SawStopToo? || s.workers[w].Copying?
    ensures c in t.conns && ConnOk(t, c)
  {
  }

  lemma DestinationConn(s: Runtime, w: nat, t: Runtime, c: nat)
    requires w in s.workers && WorkerOk(s, w) && WorkerStep(s, w, t)
    requires c in s.conns && ConnOk(s, c) && s.conns[c].holder == TheWorker(w)
    requires s.workers[w].ReleasingDst? || s.workers[w].ErasingDst?
    ensures c in t.conns && ConnOk(t, c)
  {
  }

  lemma SourceConn(s: Runtime, w: nat, t: Runtime, c: nat)
    requires w in s.workers && WorkerStep(s, w, t)
    requires c in s.conns && ConnOk(s, c) && s.conns[c].holder == TheWorker(w)
    requires var p := s.workers[w]; p.Dialing? || p.ReleasingSrc? || p.ErasingSrc? || p.HasSlot? || p.NoSlot?
    ensures c in t.conns && ConnOk(t, c)
  {
  }

  lemma NotTheWorkers(s: Runtime, w: nat, t: Runtime, c: nat)
    requires w in s.workers && WorkerOk(s, w) && WorkerStep(s, w, t)
    requires c in s.conns && ConnOk(s, c) && s.conns[c].holder != TheWorker(w)
    ensures c in t.conns && ConnOk(t, c)
  {
    hide ConnOk, WorkerOk, WorkerStep;
    HolderStands(s, c);
    WorkersAside(s, w, t);
    OthersAside(s, w, t, c);
    Untouched(s, t, c);
  }

  lemma OthersAside(s: Runtime, w: nat, t: Runtime, c: nat)
    requires w in s.workers && WorkerOk(s, w) && WorkerStep(s, w, t)
    requires c in s.conns && s.conns[c].holder != TheWorker(w)
    ensures c in t.conns && t.conns[c] == s.conns[c] && t.acceptor == s.acceptor && t.main == s.main
  {
    assert c !in WorkerHolds(s.workers[w]);
    hide WorkerOk;
  }

  lemma {:induction false} WorkerHolders(s: Runtime, w: nat, t: Runtime)
    requires AcceptorOk(s) && WorkersOk(s) && CleanupOrder(s) && w in s.workers && WorkerStep(s, w, t)
    ensures AcceptorOk(t) && WorkersOk(t) && CleanupOrder(t)
  {
    hide WorkersOk, AcceptorOk, CleanupOrder, WorkerStep, WorkerOk;
    EveryWorker(s, w);
    WorkersStay(s, w, t);
    AcceptorSpared(s, w, t);
    CleanupSpared(s, w, t);
  }

  lemma AcceptorSpared(s: Runtime, w: nat, t: Runtime)
    requires AcceptorOk(s) && w in s.workers && WorkerOk(s, w) && WorkerStep(s, w, t)
    ensures AcceptorOk(t)
  {
    assert forall c | c in WorkerHolds(s.workers[w]) :: s.conns[c].holder == TheWorker(w);
    hide WorkerOk;
  }

  lemma CleanupSpared(s: Runtime, w: nat, t: Runtime)
    requires CleanupOrder(s) && w in s.workers && WorkerStep(s, w, t)
    ensures CleanupOrder(t)
  {
  }

  lemma WorkersStay(s: Runtime, w: nat, t: Runtime)
    requires WorkersOk(s) && w in s.workers && WorkerStep(s, w, t)
    ensures WorkersOk(t)
  {
    hide WorkerOk;
    EveryWorker(s, w);
    forall v | v in t.workers ensures WorkerOk(t, v) {
      if v == w { WorkerGoesOn(s, w, t); } else { EveryWorker(s, v); AnotherWorker(s, w, t, v); }
    }
  }

  lemma WorkerGoesOn(s: Runtime, w: nat, t: Runtime)
    requires w in s.workers && WorkerOk(s, w) && WorkerStep(s, w, t) && w in t.workers
    ensures WorkerOk(t, w)
  {
    hide WorkerStep, WorkerOk;
    var p := s.workers[w];
    if p.Opened? || p.SawStopToo? || p.Copying? { OpenWorker(s, w, t); } else { ClosingWorker(s, w, t); }
  }

  lemma OpenWorker(s: Runtime, w: nat, t: Runtime)
    requires w in s.workers && WorkerOk(s, w) && WorkerStep(s, w, t) && w in t.workers
    requires s.workers[w].Opened? || s.workers[w].SawStopToo? || s.workers[w].Copying?
    ensures WorkerOk(t, w)
  {
  }

  lemma ClosingWorker(s: Runtime, w: nat, t: Runtime)
    requires w in s.workers && WorkerOk(s, w) && WorkerStep(s, w, t) && w in t.workers
    requires !s.workers[w].Opened? && !s.workers[w].SawStopToo? && !s.workers[w].Copying?
    ensures WorkerOk(t, w)
  {
  }

  lemma HoldersAside(s: Runtime, w: nat, t: Runtime)
    requires w in s.workers && WorkerOk(s, w) && WorkerStep(s, w, t)
    ensures forall c | c in s.conns ::
      c in t.conns && (s.conns[c].holder != TheWorker(w) ==> t.conns[c].holder == s.conns[c].holder)
  {
    assert forall c | c in WorkerHolds(s.workers[w]) :: s.conns[c].holder == TheWorker(w);
    hide WorkerOk;
  }

  lemma AnotherWorker(s: Runtime, w: nat, t: Runtime, v: nat)
    requires w in s.workers && WorkerOk(s, w) && WorkerStep(s, w, t)
    requires v in s.workers && v != w && WorkerOk(s, v)
    ensures v in t.workers && WorkerOk(t, v)
  {
    hide WorkerOk, WorkerStep;
    WorkersAside(s, w, t);
    HoldersAside(s, w, t);
    WorkerStays(s, t, v);
  }

  // -------------------------------------------------------------- the cleanup moves

  lemma {:induction false} MainKeeps(s: Runtime, t: Runtime)
    requires Inv(s) && MainStep(s, t)
    ensures Inv(t)
  {
    hide SlotsCount, ConnsOk, WorkersOk, CleanupOrder, AcceptorOk;
    assert SlotHolders(t) == SlotHolders(s);
    SameSlots(s, t);
    MainConns(s, t);
    MainHolders(s, t);
  }

  lemma {:induction false} MainConns(s: Runtime, t: Runtime)
    requires ConnsOk(s) && CleanupOrder(s) && MainStep(s, t)
    ensures ConnsOk(t)
  {
    hide ConnOk, CleanupOrder;
    forall c | c in t.conns ensures ConnOk(t, c) {
      EveryConn(s, c);
      MainConn(s, t, c);
    }
  }

  lemma MainConn(s: Runtime, t: Runtime, c: nat)
    requires CleanupOrder(s) && MainStep(s, t) && c in s.conns && ConnOk(s, c)
    ensures c in t.conns && ConnOk(t, c)
  {
  }

  lemma {:induction false} MainHolders(s: Runtime, t: Runtime)
    requires AcceptorOk(s) && WorkersOk(s) && CleanupOrder(s) && MainStep(s, t)
    ensures AcceptorOk(t) && WorkersOk(t) && CleanupOrder(t)
  {
    hide WorkerOk;
    forall w | w in t.workers ensures WorkerOk(t, w) {
      EveryWorker(s, w);
      WorkerStays(s, t, w);
    }
  }

  // ------------------------------------------------------------------ arrivals

  lemma {:induction false} ArrivalKeeps(s: Runtime, step: Step, t: Runtime)
    requires Inv(s) && Next(s, step, t) && (step.Accept? || step.AcceptFails?)
    ensures Inv(t)
  {
    hide SlotsCount, ConnsOk, WorkersOk, CleanupOrder, AcceptorOk;
    assert SlotHolders(t) == SlotHolders(s);
    SameSlots(s, t);
    ArrivalConns(s, step, t);
    ArrivalHolders(s, step, t);
  }

  lemma {:induction false} ArrivalConns(s: Runtime, step: Step, t: Runtime)
    requires ConnsOk(s) && CleanupOrder(s) && Next(s, step, t) && (step.Accept? || step.AcceptFails?)
    ensures ConnsOk(t)
  {
    hide ConnOk, CleanupOrder;
    forall c | c in t.conns ensures ConnOk(t, c) {
      if c in s.conns { EveryConn(s, c); HolderStands(s, c); IdleAcceptor(s, c); Untouched(s, t, c); }
      else { ArrivedConn(s, step, t, c); }
    }
  }

  lemma IdleAcceptor(s: Runtime, c: nat)
    requires s.acceptor.Accepting? && c in s.conns && ConnOk(s, c)
    ensures !s.conns[c].holder.TheAcceptor?
  {
  }

  lemma ArrivedConn(s: Runtime, step: Step, t: Runtime, c: nat)
    requires CleanupOrder(s) && Next(s, step, t) && (step.Accept? || step.AcceptFails?)
    requires c in t.conns && c !in s.conns
    ensures ConnOk(t, c)
  {
  }

  lemma {:induction false} ArrivalHolders(s: Runtime, step: Step, t: Runtime)
    requires AcceptorOk(s) && WorkersOk(s) && CleanupOrder(s) && Next(s, step, t) && (step.Accept? || step.AcceptFails?)
    ensures AcceptorOk(t) && WorkersOk(t) && CleanupOrder(t)
  {
    hide WorkerOk;
    forall w | w in t.workers ensures WorkerOk(t, w) {
      EveryWorker(s, w);
      WorkerStays(s, t, w);
    }
  }

  lemma {:induction false} SpawnKeeps(s: Runtime, w: nat, t: Runtime)
    requires Inv(s) && Next(s, Spawn(w), t)
    ensures Inv(t)
  {
    hide SlotsCount, ConnsOk, WorkersOk, CleanupOrder, AcceptorOk;
    SpawnTakesSlot(s, w, t);
    SpawnConns(s, w, t);
    SpawnHolders(s, w, t);
  }

  lemma SpawnTakesSlot(s: Runtime, w: nat, t: Runtime)
    requires SlotsCount(s) && Next(s, Spawn(w), t)
    ensures SlotsCount(t)
  {
    assert SlotHolders(t) == SlotHolders(s) + {w};
  }

  lemma {:induction false} SpawnConns(s: Runtime, w: nat, t: Runtime)
    requires ConnsOk(s) && AcceptorOk(s) && Next(s, Spawn(w), t)
    ensures ConnsOk(t)
  {
    hide ConnOk, AcceptorOk;
    forall c | c in t.conns ensures ConnOk(t, c) {
      EveryConn(s, c);
      SpawnConn(s, w, t, c);
    }
  }

  lemma SpawnConn(s: Runtime, w: nat, t: Runtime, c: nat)
    requires AcceptorOk(s) && Next(s, Spawn(w), t) && c in s.conns && ConnOk(s, c)
    ensures c in t.conns && ConnOk(t, c)
  {
  }

  lemma {:induction false} SpawnHolders(s: Runtime, w: nat, t: Runtime)
    requires AcceptorOk(s) && WorkersOk(s) && CleanupOrder(s) && Next(s, Spawn(w), t)
    ensures AcceptorOk(t) && WorkersOk(t) && CleanupOrder(t)
  {
    hide WorkersOk;
    SpawnWorkers(s, w, t);
  }

  lemma SpawnWorkers(s: Runtime, w: nat, t: Runtime)
    requires AcceptorOk(s) && WorkersOk(s) && Next(s, Spawn(w), t)
    ensures WorkersOk(t)
  {
    forall v | v in t.workers ensures WorkerOk(t, v) {
      if v in s.workers { EveryWorker(s, v); WorkerStays(s, t, v); }
    }
  }

  lemma {:induction false} DialKeeps(s: Runtime, step: Step, t: Runtime)
    requires Inv(s) && Next(s, step, t) && (step.Dialed? || step.DialFailed?)
    ensures Inv(t)
  {
    hide SlotsCount, ConnsOk, WorkersOk, CleanupOrder, AcceptorOk;
    assert SlotHolders(t) == SlotHolders(s);
    SameSlots(s, t);
    DialConns(s, step, t);
    DialHolders(s, step, t);
  }

  lemma {:induction false} DialConns(s: Runtime, step: Step, t: Runtime)
    requires ConnsOk(s) && CleanupOrder(s) && Next(s, step, t) && (step.Dialed? || step.DialFailed?)
    ensures ConnsOk(t)
  {
    hide ConnOk, CleanupOrder;
    forall c | c in t.conns ensures ConnOk(t, c) {
      if c !in s.conns { DialedConn(s, step, t, c); }
      else {
        EveryConn(s, c);
        HolderStands(s, c);
        if s.conns[c].holder == TheWorker(step.w) { DialingConn(s, step, t, c); } else { Untouched(s, t, c); }
      }
    }
  }

  lemma DialedConn(s: Runtime, step: Step, t: Runtime, c: nat)
    requires CleanupOrder(s) && Next(s, step, t) && (step.Dialed? || step.DialFailed?) && c in t.conns && c !in s.conns
    ensures ConnOk(t, c)
  {
  }

  lemma DialingConn(s: Runtime, step: Step, t: Runtime, c: nat)
    requires Next(s, step, t) && (step.Dialed? || step.DialFailed?)
    requires c in s.conns && ConnOk(s, c) && s.conns[c].holder == TheWorker(step.w)
    ensures c in t.conns && ConnOk(t, c)
  {
  }

  lemma {:induction false} DialHolders(s: Runtime, step: Step, t: Runtime)
    requires AcceptorOk(s) && WorkersOk(s) && CleanupOrder(s) && Next(s, step, t) && (step.Dialed? || step.DialFailed?)
    ensures AcceptorOk(t) && WorkersOk(t) && CleanupOrder(t)
  {
    hide WorkersOk;
    DialWorkers(s, step, t);
  }

  lemma DialWorkers(s: Runtime, step: Step, t: Runtime)
    requires WorkersOk(s) && Next(s, step, t) && (step.Dialed? || step.DialFailed?)
    ensures WorkersOk(t)
  {
    forall v | v in t.workers ensures WorkerOk(t, v) {
      EveryWorker(s, v);
      if v != step.w { WorkerStays(s, t, v); }
    }
  }

  // ------------------------------------------------------------------- closing

  lemma {:induction false} CloseKeeps(s: Runtime, step: Step, t: Runtime)
    requires Inv(s) && Next(s, step, t) && (step.WorkerCloses? || step.CleanupCloses?)
    ensures Inv(t)
  {
    hide SlotsCount, ConnsOk, WorkersOk, CleanupOrder, AcceptorOk;
    assert SlotHolders(t) == SlotHolders(s);
    SameSlots(s, t);
    CloseConns(s, step, t);
    CloseHolders(s, step, t);
  }

  lemma {:induction false} CloseConns(s: Runtime, step: Step, t: Runtime)
    requires ConnsOk(s) && WorkersOk(s) && Next(s, step, t) && (step.WorkerCloses? || step.CleanupCloses?)
    ensures ConnsOk(t)
  {
    hide ConnOk, WorkerOk;
    if step.WorkerCloses? { EveryWorker(s, step.w); }
    forall c | c in t.conns ensures ConnOk(t, c) {
      EveryConn(s, c);
      if step.WorkerCloses? { WorkerClosesConn(s, step, t, c); } else { CleanupClosesConn(s, step, t, c); }
    }
  }

  lemma WorkerClosesConn(s: Runtime, step: Step, t: Runtime, c: nat)
    requires step.WorkerCloses? && Next(s, step, t) && WorkerOk(s, step.w) && c in s.conns && ConnOk(s, c)
    ensures c in t.conns && ConnOk(t, c)
  {
  }

  lemma CleanupClosesConn(s: Runtime, step: Step, t: Runtime, c: nat)
    requires step.CleanupCloses? && Next(s, step, t) && c in s.conns && ConnOk(s, c)
    ensures c in t.conns && ConnOk(t, c)
  {
  }

  lemma {:induction false} CloseHolders(s: Runtime, step: Step, t: Runtime)
    requires AcceptorOk(s) && WorkersOk(s) && CleanupOrder(s) && Next(s, step, t)
    requires step.WorkerCloses? || step.CleanupCloses?
    ensures AcceptorOk(t) && WorkersOk(t) && CleanupOrder(t)
  {
    hide WorkerOk;
    forall w | w in t.workers ensures WorkerOk(t, w) {
      EveryWorker(s, w);
      WorkerStays(s, t, w);
    }
  }

  // ------------------------------------------------------------- everything else

  lemma {:induction false} QuietKeeps(s: Runtime, step: Step, t: Runtime)
    requires Inv(s) && Next(s, step, t) && (step.Cancel? || step.StartAcceptor? || step.Overflow?)
    ensures Inv(t)
  {
    hide SlotsCount, ConnOk, WorkerOk;
    assert SlotHolders(t) == SlotHolders(s);
    SameSlots(s, t);
    forall c | c in t.conns ensures ConnOk(t, c) {
      EveryConn(s, c);
      QuietConn(s, step, t, c);
    }
    forall w | w in t.workers ensures WorkerOk(t, w) {
      EveryWorker(s, w);
      WorkerStays(s, t, w);
    }
  }

  lemma QuietConn(s: Runtime, step: Step, t: Runtime, c: nat)
    requires Next(s, step, t) && (step.Cancel? || step.StartAcceptor? || step.Overflow?) && c in s.conns && ConnOk(s, c)
    ensures c in t.conns && ConnOk(t, c)
  {
  }

  // ------------------------------------------------------------------- results

  /** Any interleaving, from the start of the runtime. */
  ghost predicate Run(states: seq<Runtime>, steps: seq<Step>) {
    && |states| == |steps| + 1
    && (exists remote :: states[0] == Start(remote))
    && forall i | 0 <= i < |steps| :: Next(states[i], steps[i], states[i + 1])
  }

  lemma {:induction false} RunInv(states: seq<Runtime>, steps: seq<Step>, i: nat)
    requires Run(states, steps) && i < |states|
    ensures Inv(states[i])
  {
    if i > 0 {
      RunInv(states, steps, i - 1);
      NextInv(states[i - 1], steps[i - 1], states[i]);
    }
  }

  /** When RunTunnel returns, the table is empty and every connection that was accepted or
      dialed, tracked early or late, was closed exactly once; and nothing is left running. */
  lemma {:induction false} NothingLeaks(states: seq<Runtime>, steps: seq<Step>, i: nat)
    requires Run(states, steps) && i < |states| && states[i].main.Returned?
    ensures forall c | c in states[i].conns :: states[i].conns[c].closes == 1 && !states[i].conns[c].tracked
    ensures states[i].workers == map[] && states[i].slots == 0
  {
    RunInv(states, steps, i);
    var s := states[i];
    assert SlotHolders(s) == {};
    forall c | c in s.conns
      ensures s.conns[c].closes == 1 && !s.conns[c].tracked
    {
      assert ConnOk(s, c);
    }
  }

  /** At every moment: no connection is closed twice; after the cleanup's snapshot an open
      tracked connection is one the cleanup closes, or one whose tracker saw the cancelled
      context and closes it next. */
  lemma {:induction false} LateTrackersClose(states: seq<Runtime>, steps: seq<Step>, i: nat, c: nat)
    requires Run(states, steps) && i < |states| && c in states[i].conns
    ensures var s := states[i]; var k := s.conns[c];
      && k.closes <= 1
      && (Snapshot(s.main) && k.tracked && k.closes == 0 ==>
            || c in Pending(s.main)
            || s.acceptor == SawStop(c, false) || s.acceptor == SawStop(c, true)
            || exists w, src | w in s.workers :: s.workers[w] == SawStopToo(src, c))
  {
    RunInv(states, steps, i);
    var s := states[i];
    assert ConnOk(s, c);
    if Snapshot(s.main) && s.conns[c].tracked && s.conns[c].closes == 0 && s.conns[c].holder.TheWorker? {
      var w := s.conns[c].holder.w;
      assert s.workers[w].SawStopToo? && c == s.workers[w].dst ==> s.workers[w] == SawStopToo(s.workers[w].src, c);
    }
  }

  function TrackedSet(s: Runtime): set<nat> {
    set c | c in s.conns && s.conns[c].tracked
  }

  function AllHeld(workers: map<nat, Worker>, ids: set<nat>): set<nat> {
    set w, c | w in ids && w in workers && c in WorkerHolds(workers[w]) :: c
  }

  lemma {:induction false} TwoEach(workers: map<nat, Worker>, ids: set<nat>)
    ensures |AllHeld(workers, ids)| <= 2 * |ids|
  {
    if ids == {} {
      assert AllHeld(workers, ids) == {};
    } else {
      var w :| w in ids;
      var rest := ids - {w};
      TwoEach(workers, rest);
      var own := if w in workers then WorkerHolds(workers[w]) else {};
      SubsetSize(AllHeld(workers, ids), AllHeld(workers, rest) + own);
    }
  }

  /** Admission: at most 64 slots are held, a worker without one has nothing open, and the
      table holds at most two connections for each slot and one for the acceptor. */
  lemma {:induction false} TableIsBounded(states: seq<Runtime>, steps: seq<Step>, i: nat)
    requires Run(states, steps) && i < |states|
    ensures states[i].slots <= SLOTS && |TrackedSet(states[i])| <= 2 * SLOTS + 1
  {
    RunInv(states, steps, i);
    var s := states[i];
    var held := AllHeld(s.workers, SlotHolders(s));
    TwoEach(s.workers, SlotHolders(s));
    forall c | c in TrackedSet(s)
      ensures c in held + AcceptorHolds(s.acceptor)
    {
      assert ConnOk(s, c);
      if s.conns[c].holder.TheWorker? {
        var w := s.conns[c].holder.w;
        assert w in SlotHolders(s) && c in WorkerHolds(s.workers[w]);
      }
    }
    SubsetSize(TrackedSet(s), held + AcceptorHolds(s.acceptor));
  }

  /** A slot is freed only once its worker's source is closed and out of the table, and
      the worker holds no other connection. */
  lemma {:induction false} SlotOutlivesSource(states: seq<Runtime>, steps: seq<Step>, i: nat, w: nat)
    requires Run(states, steps) && i < |steps| && w in states[i].workers
    requires states[i + 1].slots < states[i].slots && steps[i] == WorkerMoves(w)
    ensures var s := states[i]; var src := s.workers[w].src;
      && src in s.conns && s.conns[src].closes == 1 && !s.conns[src].tracked
      && forall c | c in s.conns :: s.conns[c].holder != TheWorker(w)
  {
    assert Next(states[i], steps[i], states[i + 1]);
    RunInv(states, steps, i);
    hide Run;
    SlotFreedLast(states[i], w, states[i + 1]);
  }

  lemma SlotFreedLast(s: Runtime, w: nat, t: Runtime)
    requires Inv(s) && w in s.workers && WorkerStep(s, w, t) && t.slots < s.slots
    ensures var src := s.workers[w].src;
      && src in s.conns && s.conns[src].closes == 1 && !s.conns[src].tracked
      && forall c | c in s.conns :: s.conns[c].holder != TheWorker(w)
  {
    assert s.workers[w].HasSlot?;
    hide WorkerStep, ConnsOk, WorkersOk, SlotsCount, CleanupOrder, AcceptorOk;
    EveryWorker(s, w);
    EveryConn(s, s.workers[w].src);
    forall c | c in s.conns
      ensures s.conns[c].holder != TheWorker(w)
    {
      EveryConn(s, c);
    }
  }

  // ------------------------------------------------------------- one client at a time

  /** Something told the tunnel to stop: its root or a watchdog, its listener, or a return
      before the acceptor was started. Being at capacity is no such thing. */
  predicate Stops(s: Runtime, step: Step) {
    step.Cancel? || step.AcceptFails? || (step.MainMoves? && s.acceptor.NotStarted?)
  }

  ghost predicate KeepsOn(s: Runtime) {
    && !s.cancelled && s.main.Serving? && !s.acceptor.Ended? && !s.acceptor.SawStop?
    && (s.acceptor.Got? || s.acceptor.Has? ==> !s.acceptor.failed)
    && (s.acceptor.Releasing? || s.acceptor.Erasing? ==> !s.acceptor.last)
  }

  lemma StepKeepsOn(s: Runtime, step: Step, t: Runtime)
    requires KeepsOn(s) && Next(s, step, t) && !Stops(s, step)
    ensures KeepsOn(t)
  {
  }

  /** However many clients come, are refused or leave: until something stops it, the tunnel
      is not cancelled, goes on accepting and cleans nothing up. */
  lemma {:induction false} ServesUntilStopped(states: seq<Runtime>, steps: seq<Step>, i: nat)
    requires Run(states, steps) && i < |states|
    requires forall j | 0 <= j < i :: !Stops(states[j], steps[j])
    ensures !states[i].cancelled && !states[i].acceptor.Ended? && states[i].main.Serving?
    ensures KeepsOn(states[i])
  {
    if i > 0 {
      ServesUntilStopped(states, steps, i - 1);
      hide KeepsOn, Stops;
      assert Next(states[i - 1], steps[i - 1], states[i]);
      StepKeepsOn(states[i - 1], steps[i - 1], states[i]);
    }
  }

  /** The next client gets a slot and a worker exactly while fewer than 64 are taken. */
  lemma AdmissionIsByCapacity(s: Runtime, w: nat)
    requires Inv(s) && s.acceptor.Has? && !s.acceptor.failed && w !in s.workers
    ensures (exists t :: Next(s, Spawn(w), t)) <==> s.slots < 64
    ensures (exists t :: Next(s, Overflow, t)) <==> s.slots == 64
    ensures forall t | Next(s, Spawn(w), t) :: var c := s.acceptor.c;
      t == s.(conns := s.conns[c := Conn(s.conns[c].once, s.conns[c].closes, true, TheWorker(w))],
              acceptor := Accepting, workers := s.workers[w := Dialing(c)], slots := s.slots + 1)
  {
    var c := s.acceptor.c;
    hide ConnsOk, WorkersOk, CleanupOrder;
    assert c in AcceptorHolds(s.acceptor);
    EveryConn(s, c);
    var spawned := s.(slots := s.slots + 1, workers := s.workers[w := Dialing(c)], acceptor := Accepting,
                      conns := Passed(s, c, w));
    assert s.slots < 64 ==> Next(s, Spawn(w), spawned);
    var refused := s.(acceptor := Releasing(c, false));
    assert s.slots >= 64 ==> Next(s, Overflow, refused);
  }

  /** A connection that was closed once, has left the table and is nobody's any more. */
  const GONE := Conn(true, 1, false, Nobody)

  /** Refusing the client that finds no slot, alone, closes and forgets that client and
      changes nothing else: the acceptor is back where it accepts the next one. */
  lemma OverflowCostsOneClient(s: Runtime, t: Runtime, u: Runtime, v: Runtime)
    requires Inv(s) && Next(s, Overflow, t) && Next(t, AcceptorMoves, u) && Next(u, AcceptorMoves, v)
    ensures v == s.(conns := s.conns[s.acceptor.c := GONE], acceptor := Accepting)
  {
    hide ConnsOk, WorkersOk, CleanupOrder, SlotsCount;
    assert s.acceptor.c in AcceptorHolds(s.acceptor);
    EveryConn(s, s.acceptor.c);
    hide ConnOk;
  }

  /** A connection that arrives at a stopped tunnel, or with a listener's error, is closed and
      forgotten and nothing else changes; then the acceptor ends, which stops the tunnel,
      unless there was no error and the listener is a remote one, which is drained. */
  lemma StopCostsOneClient(s: Runtime, t: Runtime, u: Runtime, v: Runtime, w: Runtime)
    requires Inv(s) && s.acceptor.Got? && (s.cancelled || s.acceptor.failed)
    requires Next(s, AcceptorMoves, t) && Next(t, AcceptorMoves, u)
    requires Next(u, AcceptorMoves, v) && Next(v, AcceptorMoves, w)
    ensures var ends := s.acceptor.failed || !s.remote;
      w == s.(conns := s.conns[s.acceptor.c := GONE], acceptor := if ends then Ended else Accepting,
              cancelled := s.cancelled || ends)
  {
    hide ConnsOk, WorkersOk, CleanupOrder, SlotsCount;
    assert s.acceptor.c in AcceptorHolds(s.acceptor);
    EveryConn(s, s.acceptor.c);
    hide ConnOk;
  }

  /** A worker whose copying is over closes and forgets its two connections, frees its slot,
      leaves, and changes nothing else. */
  lemma {:induction false} WorkerEnds(path: seq<Runtime>, w: nat)
    requires |path| == 8 && forall i | 0 <= i < 7 :: Next(path[i], WorkerMoves(w), path[i + 1])
    requires Inv(path[0]) && w in path[0].workers && path[0].workers[w].Copying?
    ensures var s, t := path[0], path[7];
      var src, dst := s.workers[w].src, s.workers[w].dst;
      && t == s.(conns := s.conns[dst := GONE][src := GONE], workers := s.workers - {w}, slots := t.slots)
      && t.slots == s.slots - 1
  {
    hide *;
    var s := path[0];
    assert Next(path[0], WorkerMoves(w), path[1]) && Next(path[1], WorkerMoves(w), path[2]);
    assert Next(path[2], WorkerMoves(w), path[3]) && Next(path[3], WorkerMoves(w), path[4]);
    assert Next(path[4], WorkerMoves(w), path[5]) && Next(path[5], WorkerMoves(w), path[6]);
    assert Next(path[6], WorkerMoves(w), path[7]);
    WorkersPair(s, w);
    var src, dst := s.workers[w].src, s.workers[w].dst;
    LetsGoOfDestination(s, w, path[1], path[2], path[3]);
    var gone := s.conns[dst := GONE];
    LetsGoOfSource(path[3], w, path[4], path[5]);
    LetsGoOfSlot(path[5], w, path[6], path[7]);
    assert s.workers[w := ReleasingSrc(src)][w := HasSlot(src)] - {w} == s.workers - {w};
  }

  lemma LetsGoOfDestination(s: Runtime, w: nat, t: Runtime, u: Runtime, v: Runtime)
    requires w in s.workers && s.workers[w].Copying?
    requires var dst := s.workers[w].dst; dst in s.conns && s.conns[dst].closes == if s.conns[dst].once then 1 else 0
    requires Next(s, WorkerMoves(w), t) && Next(t, WorkerMoves(w), u) && Next(u, WorkerMoves(w), v)
    ensures var p := s.workers[w];
      v == s.(conns := s.conns[p.dst := GONE], workers := s.workers[w := ReleasingSrc(p.src)])
  {
    var p := s.workers[w];
    assert t == s.(workers := s.workers[w := ReleasingDst(p.src, p.dst)]);
    assert u == s.(conns := Closed(s, p.dst), workers := s.workers[w := ErasingDst(p.src, p.dst)]);
  }

  lemma LetsGoOfSource(s: Runtime, w: nat, t: Runtime, u: Runtime)
    requires w in s.workers && s.workers[w].ReleasingSrc?
    requires var src := s.workers[w].src; src in s.conns && s.conns[src].closes == if s.conns[src].once then 1 else 0
    requires Next(s, WorkerMoves(w), t) && Next(t, WorkerMoves(w), u)
    ensures var src := s.workers[w].src;
      u == s.(conns := s.conns[src := GONE], workers := s.workers[w := HasSlot(src)])
  {
    assert t == s.(conns := Closed(s, s.workers[w].src), workers := s.workers[w := ErasingSrc(s.workers[w].src)]);
  }

  lemma LetsGoOfSlot(s: Runtime, w: nat, t: Runtime, u: Runtime)
    requires w in s.workers && s.workers[w].HasSlot?
    requires Next(s, WorkerMoves(w), t) && Next(t, WorkerMoves(w), u)
    ensures u == s.(workers := s.workers - {w}, slots := u.slots) && u.slots == s.slots - 1
  {
    assert t == s.(workers := s.workers[w := NoSlot(s.workers[w].src)], slots := s.slots - 1);
  }

  lemma WorkersPair(s: Runtime, w: nat)
    requires Inv(s) && w in s.workers && s.workers[w].Copying?
    ensures var p := s.workers[w];
      && p.src in s.conns && p.dst in s.conns && p.src != p.dst
      && s.conns[p.src].closes == (if s.conns[p.src].once then 1 else 0)
      && s.conns[p.dst].closes == (if s.conns[p.dst].once then 1 else 0)
  {
    hide ConnsOk, WorkersOk, CleanupOrder, SlotsCount;
    EveryWorker(s, w);
    assert s.workers[w].src in WorkerHolds(s.workers[w]) && s.workers[w].dst in WorkerHolds(s.workers[w]);
    EveryConn(s, s.workers[w].src);
    EveryConn(s, s.workers[w].dst);
  }

  /** Clients do not touch each other: only its own worker and the final cleanup reach a
      worker's connection, only the acceptor and the cleanup one the acceptor holds, and
      nothing one that is gone. */
  lemma {:induction false} ClientsAreIsolated(s: Runtime, step: Step, t: Runtime, c: nat)
    requires Inv(s) && Next(s, step, t) && c in s.conns
    ensures c in t.conns
    ensures t.conns[c] != s.conns[c] ==>
      match s.conns[c].holder
      case Nobody => false
      case TheAcceptor => step == AcceptorMoves || step.Spawn? || step == CleanupCloses(c)
      case TheWorker(w) =>
        step == WorkerMoves(w) || step in {WorkerCloses(w, true), WorkerCloses(w, false)} || step == CleanupCloses(c)
  {
    hide Inv, ConnsOk, WorkersOk, AcceptorStep, WorkerStep, MainStep, ConnOk, WorkerOk;
    Parts(s);
    EveryConn(s, c);
    match step {
      case WorkerMoves(w) =>
        SameConns(s, w, t);
        if s.conns[c].holder != TheWorker(w) { EveryWorker(s, w); OthersAside(s, w, t, c); }
      case WorkerCloses(w, src) => EveryWorker(s, w); ClosesItsOwn(s, w);
      case AcceptorMoves => AcceptorReaches(s, t, c);
      case MainMoves => MainReaches(s, t);
      case CleanupCloses(_) => if s.conns[c].holder.Nobody? { Reclosed(s, c); }
      case Spawn(_) => assert s.acceptor.c in AcceptorHolds(s.acceptor);
      case _ =>
    }
  }

  lemma Parts(s: Runtime)
    requires Inv(s)
    ensures ConnsOk(s) && WorkersOk(s) && AcceptorOk(s)
  {
  }

  lemma ClosesItsOwn(s: Runtime, w: nat)
    requires w in s.workers && WorkerOk(s, w) && s.workers[w].Copying?
    ensures forall c | c in {s.workers[w].src, s.workers[w].dst} :: c in s.conns && s.conns[c].holder == TheWorker(w)
  {
    assert s.workers[w].src in WorkerHolds(s.workers[w]) && s.workers[w].dst in WorkerHolds(s.workers[w]);
  }

  lemma Reclosed(s: Runtime, c: nat)
    requires c in s.conns && ConnOk(s, c) && s.conns[c].holder.Nobody?
    ensures Closed(s, c) == s.conns
  {
  }

  lemma AcceptorReaches(s: Runtime, t: Runtime, c: nat)
    requires AcceptorOk(s) && AcceptorStep(s, t) && c in s.conns
    ensures c in t.conns && (t.conns[c] != s.conns[c] ==> s.conns[c].holder.TheAcceptor?)
  {
    assert t.conns != s.conns ==> s.acceptor.c in AcceptorHolds(s.acceptor);
  }

  lemma MainReaches(s: Runtime, t: Runtime)
    requires MainStep(s, t)
    ensures t.conns == s.conns
  {
  }

  /** Only its own steps move or end a worker. */
  lemma WorkersAreIsolated(s: Runtime, step: Step, t: Runtime, w: nat)
    requires Inv(s) && Next(s, step, t) && w in s.workers
    requires w !in t.workers || t.workers[w] != s.workers[w]
    ensures step == WorkerMoves(w) || step == DialFailed(w) || (step.Dialed? && step.w == w)
  {
    hide Inv, WorkerStep;
    if step.WorkerMoves? { WorkersAside(s, step.w, t); }
  }
}
