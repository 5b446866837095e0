/** The tunnel service: a mutex-protected registry of concurrent runs. Each section the
    service executes under its lock is one step; any number of callers, runs and late
    callbacks interleave between steps. */
module Tunnels {
  import opened Outcomes

  const MAX_LIVE := 16
  const MAX_TERMINAL := 32

  datatype State = Starting | Active | Stopping | Stopped | Failed {
    predicate Live() { Starting? || Active? || Stopping? }

    function Rank(): nat {
      match this
      case Starting => 0
      case Active => 1
      case Stopping => 2
      case Stopped => 3
      case Failed => 3
    }
  }

  datatype Scope = Unset | LocalBound | Unverified

  /** One attempt. Attempt numbers are never reused, so the number stands for the identity
      of the entry object that callbacks compare. `cancelled` and `done` are the run's
      context and its completion channel. */
  datatype Entry = Entry(
    id: nat, version: nat, connection: nat, remote: bool, state: State, scope: Scope, diagnostic: string,
    cancelled: bool, done: bool, completed: nat)

  /** `entries` maps a tunnel to its current attempt; `heap` holds every attempt ever made. */
  datatype Service = Service(
    entries: map<nat, nat>, heap: map<nat, Entry>,
    nextID: nat, nextAttempt: nat, nextCompletion: nat, closed: bool)

  datatype Refusal = Conflict | NotFound

  function LiveIds(s: Service): set<nat> {
    set id | id in s.entries && s.entries[id] in s.heap && s.heap[s.entries[id]].state.Live()
  }

  function TerminalIds(s: Service): set<nat> {
    set id | id in s.entries && s.entries[id] in s.heap && !s.heap[s.entries[id]].state.Live()
  }

  function CompletedOf(s: Service, id: nat): nat {
    if id in s.entries && s.entries[id] in s.heap then s.heap[s.entries[id]].completed else 0
  }

  /** Whether a start (id 0) or a retry of tunnel id for a connection is refused. */
  function Refused(s: Service, id: nat, connection: nat): Option<Refusal> {
    if s.closed then Some(Conflict)
    else if id != 0 && (id !in s.entries || s.entries[id] !in s.heap) then Some(NotFound)
    else if id != 0 && (s.heap[s.entries[id]].state.Live() || s.heap[s.entries[id]].connection != connection) then
      Some(Conflict)
    else if |LiveIds(s)| >= MAX_LIVE then Some(Conflict)
    else None
  }

  // --------------------------------------------------------------------- steps

  function Admitted(s: Service, id: nat, connection: nat, remote: bool): Service
    requires Refused(s, id, connection).None?
  {
    var tunnel := if id == 0 then s.nextID + 1 else id;
    var version := if id == 0 then 1 else s.heap[s.entries[id]].version + 1;
    var entry := Entry(tunnel, version, connection, remote, Starting, Unset, "", false, false, 0);
    s.(nextID := if id == 0 then s.nextID + 1 else s.nextID, nextAttempt := s.nextAttempt + 1,
       entries := s.entries[tunnel := s.nextAttempt + 1], heap := s.heap[s.nextAttempt + 1 := entry])
  }

  /** The context of an attempt is cancelled by itself or by the closing service. */
  predicate Cancelled(s: Service, a: nat)
    requires a in s.heap
  {
    s.heap[a].cancelled || s.closed
  }

  predicate Current(s: Service, a: nat)
    requires a in s.heap
  {
    s.heap[a].id in s.entries && s.entries[s.heap[a].id] == a
  }

  function AfterReady(s: Service, a: nat): Service
    requires a in s.heap
  {
    var e := s.heap[a];
    if !Current(s, a) || Cancelled(s, a) || !e.state.Starting? then s
    else
      var scope := if e.remote then Unverified else LocalBound;
      s.(heap := s.heap[a := e.(state := Active, scope := scope, version := e.version + 1)])
  }

  function AfterDiagnostic(s: Service, a: nat, text: string): Service
    requires a in s.heap
  {
    var e := s.heap[a];
    if text == "" || !Current(s, a) || Cancelled(s, a) || !e.state.Live() || e.state.Stopping? ||
      e.diagnostic == text then s
    else s.(heap := s.heap[a := e.(diagnostic := text, version := e.version + 1)])
  }

  /** How the final section of a run leaves its entry. */
  function Finished(s: Service, a: nat, failed: bool, summary: string): Entry
    requires a in s.heap
  {
    var e := s.heap[a];
    var state := if !Cancelled(s, a) && failed then Failed else Stopped;
    var text := if state.Failed? && e.diagnostic == "" then summary else e.diagnostic;
    e.(state := state, diagnostic := text, cancelled := true, version := e.version + 1,
       completed := s.nextCompletion + 1, done := true)
  }

  function Completion(s: Service, a: nat, failed: bool, summary: string): Service
    requires a in s.heap
  {
    s.(heap := s.heap[a := Finished(s, a, failed, summary)], nextCompletion := s.nextCompletion + 1)
  }

  /** Eviction forgets the oldest terminal entries and nothing else. */
  ghost predicate Evicted(s: Service, t: Service) {
    && t == s.(entries := t.entries)
    && t.entries.Keys <= s.entries.Keys && (forall id | id in t.entries :: t.entries[id] == s.entries[id])
    && LiveIds(t) == LiveIds(s)
    && |TerminalIds(t)| == (if |TerminalIds(s)| > MAX_TERMINAL then MAX_TERMINAL else |TerminalIds(s)|)
    && (forall kept, gone | kept in TerminalIds(t) && gone in s.entries && gone !in t.entries ::
          CompletedOf(s, gone) < CompletedOf(s, kept))
  }

  function MarkedStopping(e: Entry): Entry {
    if e.state.Live() && !e.state.Stopping? then e.(state := Stopping, version := e.version + 1, cancelled := true)
    else e
  }

  function AfterStop(s: Service, a: nat): Service
    requires a in s.heap
  {
    s.(heap := s.heap[a := MarkedStopping(s.heap[a])])
  }

  function AfterClose(s: Service): Service {
    s.(closed := true, heap := StoppedAll(s.heap, s.entries.Values))
  }

  function StoppedAll(heap: map<nat, Entry>, attempts: set<nat>): map<nat, Entry> {
    map a | a in heap :: if a in attempts then MarkedStopping(heap[a]) else heap[a]
  }

  datatype Step =
    | Admit(id: nat, connection: nat, remote: bool)
    | Ready(a: nat)
    | Diagnostic(a: nat, text: string)
    | Complete(a: nat, failed: bool, summary: string)
    | Stop(id: nat)
    | StopAttempt(id: nat, a: nat)
    | Dismiss(id: nat)
    | Close

  /** One locked section. Refused requests change nothing. A run completes once. */
  ghost predicate Next(s: Service, step: Step, t: Service) {
    match step
    case Admit(id, connection, remote) =>
      if Refused(s, id, connection).Some? then t == s else t == Admitted(s, id, connection, remote)
    case Ready(a) => a in s.heap && t == AfterReady(s, a)
    case Diagnostic(a, text) => a in s.heap && t == AfterDiagnostic(s, a, text)
    case Complete(a, failed, summary) =>
      a in s.heap && !s.heap[a].done && Evicted(Completion(s, a, failed, summary), t)
    case Stop(id) => t == if id in s.entries && s.entries[id] in s.heap then AfterStop(s, s.entries[id]) else s
    case StopAttempt(id, a) => t == if id in s.entries && s.entries[id] == a && a in s.heap then AfterStop(s, a) else s
    case Dismiss(id) => t == if id in TerminalIds(s) then s.(entries := s.entries - {id}) else s
    case Close => t == AfterClose(s)
  }

  // ---------------------------------------------------------------- invariants

  ghost predicate Bounded(s: Service) {
    |LiveIds(s)| <= MAX_LIVE && |TerminalIds(s)| <= MAX_TERMINAL
  }

  /** A run that has not completed is the current entry of its tunnel. */
  ghost predicate UnfinishedAreCurrent(s: Service) {
    forall a | a in s.heap && !s.heap[a].done :: Current(s, a)
  }

  ghost predicate EntryOk(s: Service, a: nat)
    requires a in s.heap
  {
    var e := s.heap[a];
    && 1 <= a <= s.nextAttempt
    && 1 <= e.id <= s.nextID
    && (e.state.Live() <==> !e.done)
    && (e.done ==> e.cancelled && 1 <= e.completed <= s.nextCompletion)
    && (e.state.Stopping? ==> e.cancelled)
    && (e.state.Starting? || e.state.Active? ==> !Cancelled(s, a))
  }

  ghost predicate EntriesOk(s: Service) {
    forall a | a in s.heap :: EntryOk(s, a)
  }

  ghost predicate MapOk(s: Service) {
    forall id | id in s.entries :: s.entries[id] in s.heap && s.heap[s.entries[id]].id == id
  }

  ghost predicate CompletionsDiffer(s: Service) {
    forall a, b | a in s.heap && b in s.heap && a != b && s.heap[a].done && s.heap[b].done ::
      s.heap[a].completed != s.heap[b].completed
  }

  /** Over the attempts of one tunnel, versions grow and only the last can be unfinished. */
  ghost predicate VersionsGrow(s: Service) {
    forall a, b | a in s.heap && b in s.heap && a < b && s.heap[a].id == s.heap[b].id ::
      s.heap[a].done && s.heap[a].version < s.heap[b].version
  }

  ghost predicate CurrentIsLast(s: Service) {
    forall a | a in s.heap && s.heap[a].id in s.entries :: a <= s.entries[s.heap[a].id]
  }

  ghost predicate Inv(s: Service) {
    EntriesOk(s) && MapOk(s) && CurrentIsLast(s) && UnfinishedAreCurrent(s) && CompletionsDiffer(s) &&
      VersionsGrow(s) && Bounded(s)
  }

  lemma EveryEntry(s: Service, a: nat)
    requires EntriesOk(s) && a in s.heap
    ensures EntryOk(s, a)
  {
  }

  lemma EveryEntryOf(s: Service)
    requires Inv(s)
    ensures EntriesOk(s)
  {
  }

  const Fresh := Service(map[], map[], 0, 0, 0, false)

  lemma InitInv()
    ensures Inv(Fresh)
  {
  }

  lemma {:induction false} NextInv(s: Service, step: Step, t: Service)
    requires Inv(s) && Next(s, step, t)
    ensures Inv(t)
  {
    hide Inv, EntriesOk, Touched, Refused, Admitted, AfterReady, AfterDiagnostic, AfterStop, AfterClose, Completion,
      Evicted, TerminalIds;
    match step
    case Admit(id, connection, remote) =>
      if Refused(s, id, connection).None? { AdmitInv(s, id, connection, remote); }
    case Ready(a) => if t != s { EveryEntryOf(s); ReadyTouches(s, a); TouchInv(s, a, t); }
    case Diagnostic(a, text) => if t != s { EveryEntryOf(s); DiagnosticTouches(s, a, text); TouchInv(s, a, t); }
    case Complete(a, failed, summary) => CompleteInv(s, a, failed, summary, t);
    case Stop(id) => if id in s.entries && s.entries[id] in s.heap { StopInv(s, s.entries[id]); }
    case StopAttempt(id, a) => if id in s.entries && s.entries[id] == a && a in s.heap { StopInv(s, a); }
    case Dismiss(id) => if id in TerminalIds(s) { DismissInv(s, id); }
    case Close => CloseInv(s);
  }

  lemma {:induction false} AdmitInv(s: Service, id: nat, connection: nat, remote: bool)
    requires Inv(s) && Refused(s, id, connection).None?
    ensures Inv(Admitted(s, id, connection, remote))
  {
    AdmitEntries(s, id, connection, remote);
    AdmitVersions(s, id, connection, remote);
    AdmitBounds(s, id, connection, remote);
  }

  lemma AdmitEntries(s: Service, id: nat, connection: nat, remote: bool)
    requires Inv(s) && Refused(s, id, connection).None?
    ensures var t := Admitted(s, id, connection, remote);
            EntriesOk(t) && MapOk(t) && CurrentIsLast(t) && UnfinishedAreCurrent(t) && CompletionsDiffer(t)
  {
    AdmitCurrent(s, id, connection, remote);
    AdmitMapping(s, id, connection, remote);
    hide Inv, Admitted, Refused;
  }

  lemma AdmitMapping(s: Service, id: nat, connection: nat, remote: bool)
    requires Inv(s) && Refused(s, id, connection).None?
    ensures var t := Admitted(s, id, connection, remote); EntriesOk(t) && MapOk(t) && CompletionsDiffer(t)
  {
    var t := Admitted(s, id, connection, remote);
    hide EntriesOk, EntryOk, VersionsGrow, Bounded, CurrentIsLast, UnfinishedAreCurrent, LiveIds;
    AdmittedIsNew(s);
    AdmitEachEntry(s, id, connection, remote);
    hide Refused;
  }

  lemma AdmittedIsNew(s: Service)
    requires EntriesOk(s)
    ensures s.nextAttempt + 1 !in s.heap
  {
    if s.nextAttempt + 1 in s.heap { EveryEntry(s, s.nextAttempt + 1); }
  }

  lemma AdmitEachEntry(s: Service, id: nat, connection: nat, remote: bool)
    requires Inv(s) && Refused(s, id, connection).None?
    ensures EntriesOk(Admitted(s, id, connection, remote))
  {
    hide VersionsGrow, Bounded, CurrentIsLast, UnfinishedAreCurrent, CompletionsDiffer, LiveIds;
    if id != 0 { EveryEntry(s, s.entries[id]); }
    hide MapOk;
    forall a | a in s.heap
      ensures EntryOk(Admitted(s, id, connection, remote), a)
    {
      EveryEntry(s, a);
    }
  }

  lemma AdmitCurrent(s: Service, id: nat, connection: nat, remote: bool)
    requires Inv(s) && Refused(s, id, connection).None?
    ensures var t := Admitted(s, id, connection, remote); CurrentIsLast(t) && UnfinishedAreCurrent(t)
  {
    hide VersionsGrow, Bounded, CompletionsDiffer;
    forall a | a in s.heap
      ensures a <= s.nextAttempt
    {
      assert EntryOk(s, a);
    }
  }

  lemma AdmitVersions(s: Service, id: nat, connection: nat, remote: bool)
    requires Inv(s) && Refused(s, id, connection).None?
    ensures VersionsGrow(Admitted(s, id, connection, remote))
  {
  }

  lemma AdmitBounds(s: Service, id: nat, connection: nat, remote: bool)
    requires MapOk(s) && EntriesOk(s) && Bounded(s) && Refused(s, id, connection).None?
    ensures Bounded(Admitted(s, id, connection, remote))
  {
    var t := Admitted(s, id, connection, remote);
    var tunnel := if id == 0 then s.nextID + 1 else id;
    assert |LiveIds(s)| < MAX_LIVE;
    AdmitSets(s, id, connection, remote);
    hide MapOk, EntriesOk, LiveIds, TerminalIds, Admitted, Refused;
    SubsetSize(LiveIds(t), LiveIds(s) + {tunnel});
    SubsetSize(TerminalIds(t), TerminalIds(s));
  }

  lemma AdmitSets(s: Service, id: nat, connection: nat, remote: bool)
    requires MapOk(s) && EntriesOk(s) && Refused(s, id, connection).None?
    ensures var t := Admitted(s, id, connection, remote);
      && LiveIds(t) <= LiveIds(s) + {if id == 0 then s.nextID + 1 else id}
      && TerminalIds(t) <= TerminalIds(s)
  {
    var t := Admitted(s, id, connection, remote);
    forall k | k in s.entries
      ensures s.entries[k] != s.nextAttempt + 1
    {
      assert EntryOk(s, s.entries[k]);
    }
    hide MapOk, EntriesOk;
  }

  /** The entry of an unfinished attempt changed, keeping its identity. */
  ghost predicate Touched(s: Service, a: nat, t: Service) {
    && a in s.heap && a in t.heap && !s.heap[a].done
    && t == s.(heap := s.heap[a := t.heap[a]])
    && t.heap[a].version == s.heap[a].version + 1
    && t.heap[a].id == s.heap[a].id && !t.heap[a].done && t.heap[a].state.Live()
    && EntryOk(t, a)
  }

  lemma ReadyTouches(s: Service, a: nat)
    requires EntriesOk(s) && a in s.heap && AfterReady(s, a) != s
    ensures Touched(s, a, AfterReady(s, a)) && Advances(s.heap[a], AfterReady(s, a).heap[a])
  {
  }

  lemma DiagnosticTouches(s: Service, a: nat, text: string)
    requires EntriesOk(s) && a in s.heap && AfterDiagnostic(s, a, text) != s
    ensures Touched(s, a, AfterDiagnostic(s, a, text)) && Advances(s.heap[a], AfterDiagnostic(s, a, text).heap[a])
  {
  }

  lemma StopInv(s: Service, a: nat)
    requires Inv(s) && a in s.heap
    ensures Inv(AfterStop(s, a))
  {
    hide VersionsGrow, Bounded, CompletionsDiffer, MapOk, UnfinishedAreCurrent;
    assert EntryOk(s, a);
    var t := AfterStop(s, a);
    if MarkedStopping(s.heap[a]) == s.heap[a] {
      assert t == s;
    } else {
      assert EntryOk(t, a);
      TouchInv(s, a, t);
    }
  }

  lemma {:induction false} TouchInv(s: Service, a: nat, t: Service)
    requires Inv(s) && Touched(s, a, t)
    ensures Inv(t)
  {
    hide EntriesOk, MapOk, CurrentIsLast, UnfinishedAreCurrent, CompletionsDiffer, VersionsGrow, Bounded, Touched;
    TouchBounds(s, a, t);
    TouchVersions(s, a, t);
    TouchEntries(s, a, t);
    TouchMapping(s, a, t);
  }

  lemma TouchEntries(s: Service, a: nat, t: Service)
    requires EntriesOk(s) && Touched(s, a, t)
    ensures EntriesOk(t)
  {
    hide EntriesOk;
    forall b | b in t.heap
      ensures EntryOk(t, b)
    {
      EveryEntry(s, b);
    }
    AllEntries(t);
  }

  lemma AllEntries(s: Service)
    requires forall a | a in s.heap :: EntryOk(s, a)
    ensures EntriesOk(s)
  {
  }

  lemma TouchMapping(s: Service, a: nat, t: Service)
    requires MapOk(s) && CurrentIsLast(s) && UnfinishedAreCurrent(s) && Touched(s, a, t)
    ensures MapOk(t) && CurrentIsLast(t) && UnfinishedAreCurrent(t)
  {
    hide EntryOk;
    assert forall b | b in t.heap :: t.heap[b].id == s.heap[b].id && t.heap[b].done == s.heap[b].done;
  }

  lemma TouchBounds(s: Service, a: nat, t: Service)
    requires MapOk(s) && EntriesOk(s) && Bounded(s) && Touched(s, a, t)
    ensures Bounded(t)
  {
    assert EntryOk(s, a);
    assert LiveIds(t) == LiveIds(s);
    assert TerminalIds(t) == TerminalIds(s);
  }

  lemma TouchVersions(s: Service, a: nat, t: Service)
    requires VersionsGrow(s) && CompletionsDiffer(s) && Touched(s, a, t)
    ensures VersionsGrow(t) && CompletionsDiffer(t)
  {
    hide EntryOk;
  }

  lemma {:induction false} DismissInv(s: Service, id: nat)
    requires Inv(s) && id in TerminalIds(s)
    ensures Inv(s.(entries := s.entries - {id}))
  {
    var t := s.(entries := s.entries - {id});
    hide EntriesOk, MapOk, CurrentIsLast, UnfinishedAreCurrent, CompletionsDiffer, VersionsGrow, Bounded, TerminalIds;
    DismissBounds(s, id);
    SameHeap(s, t);
    DismissMapping(s, id);
  }

  lemma DismissBounds(s: Service, id: nat)
    requires Bounded(s) && id in TerminalIds(s)
    ensures Bounded(s.(entries := s.entries - {id}))
  {
    var t := s.(entries := s.entries - {id});
    assert LiveIds(t) == LiveIds(s);
    SubsetSize(TerminalIds(t), TerminalIds(s));
  }

  lemma DismissMapping(s: Service, id: nat)
    requires EntriesOk(s) && MapOk(s) && CurrentIsLast(s) && UnfinishedAreCurrent(s) && id in TerminalIds(s)
    ensures var t := s.(entries := s.entries - {id});
      EntriesOk(t) && MapOk(t) && CurrentIsLast(t) && UnfinishedAreCurrent(t)
  {
    var t := s.(entries := s.entries - {id});
    hide EntriesOk;
    EveryEntry(s, s.entries[id]);
    forall a | a in t.heap
      ensures EntryOk(t, a)
    {
      EveryEntry(s, a);
    }
    AllEntries(t);
    hide EntryOk;
  }

  lemma SameHeap(s: Service, t: Service)
    requires s.heap == t.heap
    ensures VersionsGrow(t) == VersionsGrow(s) && CompletionsDiffer(t) == CompletionsDiffer(s)
  {
  }

  lemma {:induction false} CloseInv(s: Service)
    requires Inv(s)
    ensures Inv(AfterClose(s))
  {
    var t := AfterClose(s);
    CloseVersions(s);
    CloseEntries(s);
    CloseIds(s);
    hide VersionsGrow, CompletionsDiffer, EntriesOk, UnfinishedAreCurrent;
  }

  lemma CloseEntries(s: Service)
    requires EntriesOk(s) && UnfinishedAreCurrent(s)
    ensures EntriesOk(AfterClose(s)) && UnfinishedAreCurrent(AfterClose(s))
    ensures forall a | a in s.heap :: AfterClose(s).heap[a].id == s.heap[a].id
  {
  }

  lemma CloseIds(s: Service)
    ensures LiveIds(AfterClose(s)) == LiveIds(s) && TerminalIds(AfterClose(s)) == TerminalIds(s)
  {
  }

  lemma CloseVersions(s: Service)
    requires VersionsGrow(s) && CompletionsDiffer(s) && EntriesOk(s)
    ensures VersionsGrow(AfterClose(s)) && CompletionsDiffer(AfterClose(s))
  {
  }

  lemma {:induction false} CompleteInv(s: Service, a: nat, failed: bool, summary: string, t: Service)
    requires Inv(s) && a in s.heap && !s.heap[a].done && Evicted(Completion(s, a, failed, summary), t)
    ensures Inv(t)
  {
    var u := Completion(s, a, failed, summary);
    CompletionHistory(s, a, failed, summary);
    SameHeap(u, t);
    CompletionBounds(s, a, failed, summary, t);
    CompletionEntries(s, a, failed, summary, t);
    hide Evicted, Bounded, VersionsGrow, CompletionsDiffer, EntriesOk, UnfinishedAreCurrent, MapOk, CurrentIsLast;
  }

  lemma CompletionEntries(s: Service, a: nat, failed: bool, summary: string, t: Service)
    requires EntriesOk(s) && UnfinishedAreCurrent(s) && MapOk(s) && CurrentIsLast(s)
    requires a in s.heap && !s.heap[a].done && Evicted(Completion(s, a, failed, summary), t)
    ensures EntriesOk(t) && UnfinishedAreCurrent(t) && MapOk(t) && CurrentIsLast(t)
    ensures t.heap == Completion(s, a, failed, summary).heap
  {
    hide EntriesOk, EntryOk, TerminalIds, CompletedOf;
    forall b | b in t.heap
      ensures EntryOk(t, b)
    {
      EveryEntry(s, b);
      CompletionEntry(s, a, failed, summary, t, b);
    }
    AllEntries(t);
    forall b | b in t.heap && !t.heap[b].done
      ensures Current(t, b)
    {
      assert Current(s, b);
      EveryEntry(s, b);
      StillLive(s, a, failed, summary, b);
    }
  }

  lemma CompletionEntry(s: Service, a: nat, failed: bool, summary: string, t: Service, b: nat)
    requires a in s.heap && !s.heap[a].done && b in s.heap && EntryOk(s, b)
    requires Evicted(Completion(s, a, failed, summary), t)
    ensures b in t.heap && EntryOk(t, b)
  {
    hide LiveIds, TerminalIds, CompletedOf;
  }

  lemma StillLive(s: Service, a: nat, failed: bool, summary: string, b: nat)
    requires a in s.heap && b in s.heap && b != a && Current(s, b) && EntryOk(s, b) && !s.heap[b].done
    ensures s.heap[b].id in LiveIds(Completion(s, a, failed, summary))
  {
  }

  lemma CompletionHistory(s: Service, a: nat, failed: bool, summary: string)
    requires VersionsGrow(s) && CompletionsDiffer(s) && EntriesOk(s) && a in s.heap && !s.heap[a].done
    ensures var u := Completion(s, a, failed, summary);
            VersionsGrow(u) && CompletionsDiffer(u)
  {
  }

  lemma CompletionBounds(s: Service, a: nat, failed: bool, summary: string, t: Service)
    requires Bounded(s) && MapOk(s) && a in s.heap && Evicted(Completion(s, a, failed, summary), t)
    ensures Bounded(t)
  {
    SubsetSize(LiveIds(Completion(s, a, failed, summary)), LiveIds(s));
  }

  // ----------------------------------------------------------- what a section does

  /** Nothing differs but one attempt, which keeps what identifies it and is one version on. */
  ghost predicate OnlyAttempt(s: Service, a: nat, t: Service) {
    && a in s.heap && a in t.heap
    && t == s.(heap := s.heap[a := t.heap[a]])
    && t.heap[a].version == s.heap[a].version + 1
    && t.heap[a] == s.heap[a].(state := t.heap[a].state, scope := t.heap[a].scope, version := t.heap[a].version,
                               diagnostic := t.heap[a].diagnostic, cancelled := t.heap[a].cancelled)
  }

  /** A run ends as failed exactly when it failed and was neither stopped nor caught by the
      closing service, otherwise as stopped; a failure gets its summary if no diagnostic
      told more. */
  lemma CompleteDoes(s: Service, a: nat, failed: bool, summary: string, t: Service)
    requires Inv(s) && Next(s, Complete(a, failed, summary), t)
    ensures a in t.heap && t == s.(entries := t.entries, heap := s.heap[a := t.heap[a]],
                                   nextCompletion := s.nextCompletion + 1)
    ensures var e, f := s.heap[a], t.heap[a];
      && (f.state.Failed? <==> failed && !e.cancelled && !s.closed)
      && (f.state.Stopped? <==> !f.state.Failed?)
      && f.diagnostic == (if f.state.Failed? && e.diagnostic == "" then summary else e.diagnostic)
      && f.done && f.cancelled && f.version == e.version + 1 && f.completed == t.nextCompletion
      && f.id == e.id && f.connection == e.connection && f.remote == e.remote && f.scope == e.scope
  {
    hide Inv, LiveIds, TerminalIds, CompletedOf;
  }

  /** A tunnel is forgotten at a completion only when its run is over, thirty-two others that
      are over remain, and each of them completed later. */
  lemma EvictionDoes(s: Service, a: nat, failed: bool, summary: string, t: Service, id: nat)
    requires Inv(s) && Next(s, Complete(a, failed, summary), t) && id in s.entries
    ensures id in t.entries ==> t.entries[id] == s.entries[id]
    ensures t.entries.Keys <= s.entries.Keys && |TerminalIds(t)| <= 32
    ensures id !in t.entries ==>
      && s.entries[id] in t.heap && t.heap[s.entries[id]].done && |TerminalIds(t)| == 32
      && forall k | k in TerminalIds(t) :: t.heap[s.entries[id]].completed < t.heap[t.entries[k]].completed
  {
    hide Inv, EntriesOk, TerminalIds, Evicted, Finished;
    NextInv(s, Complete(a, failed, summary), t);
    CompletionReady(s, a, failed, summary);
    StayOrGo(Completion(s, a, failed, summary), t, id);
    if id !in t.entries {
      EveryEntryOf(t);
      EveryEntry(t, s.entries[id]);
    }
  }

  lemma StayOrGo(u: Service, t: Service, id: nat)
    requires Evicted(u, t) && MapOk(u) && id in u.entries
    ensures t.heap == u.heap && t.entries.Keys <= u.entries.Keys && |TerminalIds(t)| <= 32
    ensures id in t.entries ==> t.entries[id] == u.entries[id]
    ensures id !in t.entries ==>
      && !t.heap[u.entries[id]].state.Live() && |TerminalIds(t)| == 32
      && forall k | k in TerminalIds(t) :: t.heap[u.entries[id]].completed < t.heap[t.entries[k]].completed
  {
    if id !in t.entries {
      assert id in LiveIds(u) <==> id in LiveIds(t);
      assert id in TerminalIds(u) && id !in TerminalIds(t);
      SubsetSize(TerminalIds(t), TerminalIds(u));
    }
  }

  /** What an attempt whose run has not completed still is. */
  lemma Unfinished(s: Service, a: nat)
    requires Inv(s) && a in s.heap
    ensures s.heap[a].state.Live() <==> !s.heap[a].done
    ensures s.heap[a].state.Starting? || s.heap[a].state.Active? ==> !s.heap[a].cancelled && !s.closed && Current(s, a)
  {
    hide EntriesOk, MapOk, CurrentIsLast, CompletionsDiffer, VersionsGrow, Bounded;
    EveryEntry(s, a);
  }

  /** A ready callback is heeded exactly while its attempt is starting. */
  lemma ReadyDoes(s: Service, a: nat, t: Service)
    requires Inv(s) && Next(s, Ready(a), t)
    ensures s.heap[a].state.Starting? <==> t != s
    ensures t != s ==>
      && OnlyAttempt(s, a, t) && t.heap[a].state.Active?
      && t.heap[a].scope == (if s.heap[a].remote then Unverified else LocalBound)
      && t.heap[a].diagnostic == s.heap[a].diagnostic && t.heap[a].cancelled == s.heap[a].cancelled
  {
    Unfinished(s, a);
  }

  /** A diagnostic is recorded exactly when it is news about a starting or active attempt. */
  lemma DiagnosticDoes(s: Service, a: nat, text: string, t: Service)
    requires Inv(s) && Next(s, Diagnostic(a, text), t)
    ensures var e := s.heap[a];
      t != s <==> text != "" && text != e.diagnostic && (e.state.Starting? || e.state.Active?)
    ensures t != s ==>
      && OnlyAttempt(s, a, t) && t.heap[a].diagnostic == text && t.heap[a].state == s.heap[a].state
      && t.heap[a].scope == s.heap[a].scope && t.heap[a].cancelled == s.heap[a].cancelled
  {
    Unfinished(s, a);
  }

  /** A stop reaches the attempt its tunnel has now, if it names no other; it cancels one that
      is starting or active and leaves any other as it is. */
  lemma StopDoes(s: Service, step: Step, t: Service)
    requires Inv(s) && Next(s, step, t) && (step.Stop? || step.StopAttempt?)
    ensures t != s <==>
      && step.id in s.entries && (step.StopAttempt? ==> s.entries[step.id] == step.a)
      && (s.heap[s.entries[step.id]].state.Starting? || s.heap[s.entries[step.id]].state.Active?)
    ensures t != s ==> var a := s.entries[step.id];
      && OnlyAttempt(s, a, t) && t.heap[a].state.Stopping? && t.heap[a].cancelled
      && t.heap[a].diagnostic == s.heap[a].diagnostic && t.heap[a].scope == s.heap[a].scope
  {
    hide EntriesOk, CurrentIsLast, UnfinishedAreCurrent, CompletionsDiffer, VersionsGrow, Bounded;
    if step.id in s.entries {
      var a := s.entries[step.id];
      assert s.heap[a := s.heap[a]] == s.heap;
    }
  }

  /** A dismissal forgets the tunnel it names exactly when its run is over. */
  lemma DismissDoes(s: Service, id: nat, t: Service)
    requires Inv(s) && Next(s, Dismiss(id), t)
    ensures t == s.(entries := t.entries)
    ensures id in t.entries <==> id in s.entries && !s.heap[s.entries[id]].done
    ensures forall k | k in s.entries && k != id :: k in t.entries && t.entries[k] == s.entries[k]
    ensures t.entries.Keys <= s.entries.Keys && (id in t.entries ==> t.entries[id] == s.entries[id])
  {
    hide EntriesOk, CurrentIsLast, UnfinishedAreCurrent, CompletionsDiffer, VersionsGrow, Bounded;
    if id in s.entries {
      EveryEntry(s, s.entries[id]);
    }
  }

  /** Closing cancels every attempt that is starting or active and leaves the others alone. */
  lemma CloseDoes(s: Service, t: Service)
    requires Inv(s) && Next(s, Close, t)
    ensures t == s.(closed := true, heap := t.heap) && t.heap.Keys == s.heap.Keys
    ensures forall a | a in s.heap :: var e, f := s.heap[a], t.heap[a];
      if e.state.Starting? || e.state.Active?
      then f == e.(state := f.state, cancelled := true, version := e.version + 1) && f.state.Stopping?
      else f == e
  {
    hide EntriesOk, MapOk, CurrentIsLast, CompletionsDiffer, VersionsGrow, Bounded, EntryOk;
    forall a | a in s.heap && (s.heap[a].state.Starting? || s.heap[a].state.Active?)
      ensures a in s.entries.Values
    {
      Unfinished(s, a);
    }
  }

  /** Which tunnels have a run that is not over. */
  function UnfinishedIds(s: Service): set<nat> {
    set id | id in s.entries && s.entries[id] in s.heap && !s.heap[s.entries[id]].done
  }

  /** Admission is granted exactly by an open service with fewer than sixteen unfinished runs,
      to a new tunnel or to the retry of one that is over, for the same connection. */
  lemma AdmitDoes(s: Service, id: nat, connection: nat, remote: bool, t: Service)
    requires Inv(s) && Next(s, Admit(id, connection, remote), t)
    ensures t != s <==>
      && !s.closed && |UnfinishedIds(s)| < 16
      && (id != 0 ==> id in s.entries && s.heap[s.entries[id]].done && s.heap[s.entries[id]].connection == connection)
    ensures t != s ==> var a := s.nextAttempt + 1;
      && a !in s.heap && a in t.heap && t.heap == s.heap[a := t.heap[a]]
      && t == s.(nextAttempt := a, nextID := if id == 0 then s.nextID + 1 else s.nextID, heap := t.heap,
                 entries := s.entries[t.heap[a].id := a])
      && AsAdmitted(s, id, connection, remote, t.heap[a])
  {
    hide EntriesOk, CurrentIsLast, UnfinishedAreCurrent, CompletionsDiffer, VersionsGrow, Bounded, LiveIds,
      UnfinishedIds;
    LiveAreUnfinished(s);
    AdmittedIsNew(s);
    if id in s.entries { EveryEntry(s, s.entries[id]); }
  }

  /** A new attempt: of a new tunnel under the first version, or of a retried one under the
      version after its last. */
  ghost predicate AsAdmitted(s: Service, id: nat, connection: nat, remote: bool, e: Entry) {
    && (id == 0 ==> e.id == s.nextID + 1 && e.version == 1)
    && (id != 0 ==>
          && e.id == id && id in s.entries && s.entries[id] in s.heap
          && e.version == s.heap[s.entries[id]].version + 1)
    && e.connection == connection && e.remote == remote
    && e.state.Starting? && e.scope.Unset? && e.diagnostic == "" && !e.cancelled && !e.done
  }

  lemma LiveAreUnfinished(s: Service)
    requires EntriesOk(s)
    ensures LiveIds(s) == UnfinishedIds(s)
  {
    hide EntriesOk;
    forall id | id in s.entries && s.entries[id] in s.heap
      ensures s.heap[s.entries[id]].state.Live() <==> !s.heap[s.entries[id]].done
    {
      EveryEntry(s, s.entries[id]);
    }
  }

  /** Only the retry of a tunnel an open service does not know is refused as not found. */
  lemma RefusalMeans(s: Service, id: nat, connection: nat)
    requires Inv(s)
    ensures Refused(s, id, connection) == Some(NotFound) <==> !s.closed && id != 0 && id !in s.entries
  {
    hide EntriesOk, CurrentIsLast, UnfinishedAreCurrent, CompletionsDiffer, VersionsGrow, Bounded, LiveIds;
  }

  // ------------------------------------------------------------------ histories

  /** What can become of one attempt: completed ones are final, every change raises the
      version, states only move forward, and a stopped one never ends as failed. */
  ghost predicate Advances(e: Entry, f: Entry) {
    || f == e
    || (&& !e.done && e.version < f.version
        && f.id == e.id && f.connection == e.connection
        && e.state.Rank() <= f.state.Rank()
        && (e.cancelled ==> f.cancelled && (f.state.Stopping? || f.state.Stopped?)))
  }

  ghost predicate Progress(s: Service, t: Service) {
    && (forall a | a in s.heap :: a in t.heap && Advances(s.heap[a], t.heap[a]))
    && (forall a | a in t.heap && a !in s.heap :: s.nextAttempt < a && !s.closed)
    && s.nextAttempt <= t.nextAttempt && s.nextID <= t.nextID
    && (s.closed ==> t.closed)
  }

  lemma {:induction false} NextProgress(s: Service, step: Step, t: Service)
    requires EntriesOk(s) && Next(s, step, t)
    ensures Progress(s, t)
  {
    match step
    case Admit(id, connection, remote) =>
      forall a | a in s.heap
        ensures a in t.heap && t.heap[a] == s.heap[a]
      {
        assert EntryOk(s, a);
      }
    case Complete(a, failed, summary) => CompletionAdvances(s, a, failed, summary);
    case Close => CloseAdvances(s);
    case _ => ChangeAdvances(s, step, t);
  }

  lemma CompletionAdvances(s: Service, a: nat, failed: bool, summary: string)
    requires EntriesOk(s) && a in s.heap && !s.heap[a].done
    ensures Advances(s.heap[a], Finished(s, a, failed, summary))
  {
  }

  lemma CloseAdvances(s: Service)
    requires EntriesOk(s)
    ensures forall a | a in s.heap :: Advances(s.heap[a], AfterClose(s).heap[a])
  {
  }

  lemma ChangeAdvances(s: Service, step: Step, t: Service)
    requires EntriesOk(s) && Next(s, step, t)
    requires step.Ready? || step.Diagnostic? || step.Stop? || step.StopAttempt? || step.Dismiss?
    ensures Progress(s, t)
  {
    hide EntriesOk, Progress, Advances;
    StayPut(s);
    match step
    case Ready(a) => if t != s { ReadyTouches(s, a); TouchAdvances(s, a, t); }
    case Diagnostic(a, text) => if t != s { DiagnosticTouches(s, a, text); TouchAdvances(s, a, t); }
    case Stop(id) => if t != s { StopAdvances(s, s.entries[id]); }
    case StopAttempt(id, a) => if t != s { StopAdvances(s, a); }
    case Dismiss(id) => EntriesAside(s, t);
    case _ =>
  }

  lemma TouchAdvances(s: Service, a: nat, t: Service)
    requires EntriesOk(s) && Touched(s, a, t) && Advances(s.heap[a], t.heap[a])
    ensures Progress(s, t)
  {
  }

  lemma StopAdvances(s: Service, a: nat)
    requires EntriesOk(s) && a in s.heap
    ensures Progress(s, AfterStop(s, a))
  {
    EveryEntry(s, a);
    hide EntriesOk;
  }

  lemma EntriesAside(s: Service, t: Service)
    requires t == s.(entries := t.entries)
    ensures Progress(s, t)
  {
  }

  lemma ProgressTransitive(s: Service, t: Service, u: Service)
    requires Progress(s, t) && Progress(t, u)
    ensures Progress(s, u)
  {
  }

  /** Any interleaving of locked sections, from a new service. */
  ghost predicate Run(states: seq<Service>, steps: seq<Step>) {
    && |states| == |steps| + 1
    && states[0] == Fresh
    && forall i | 0 <= i < |steps| :: Next(states[i], steps[i], states[i + 1])
  }

  lemma {:induction false} RunInv(states: seq<Service>, steps: seq<Step>, i: nat)
    requires Run(states, steps) && i < |states|
    ensures Inv(states[i])
  {
    if i == 0 {
      InitInv();
    } else {
      RunInv(states, steps, i - 1);
      NextInv(states[i - 1], steps[i - 1], states[i]);
    }
  }

  /** Between any two moments of a run, attempts only advance. */
  lemma {:induction false} RunProgress(states: seq<Service>, steps: seq<Step>, i: nat, j: nat)
    requires Run(states, steps) && i <= j < |states|
    ensures Progress(states[i], states[j])
    decreases j
  {
    hide Inv, Progress, Next;
    if i < j {
      RunProgress(states, steps, i, j - 1);
      RunInv(states, steps, j - 1);
      OneMoreStep(states[i], states[j - 1], steps[j - 1], states[j]);
    } else {
      StayPut(states[i]);
    }
  }

  lemma OneMoreStep(s: Service, t: Service, step: Step, u: Service)
    requires Progress(s, t) && Inv(t) && Next(t, step, u)
    ensures Progress(s, u)
  {
    hide EntriesOk, Progress, Next;
    NextProgress(t, step, u);
    ProgressTransitive(s, t, u);
  }

  /** No id is used twice: an admitted start gets an id, and any admission an attempt number,
      that no attempt of the run so far had; an admitted retry keeps the id of its tunnel
      under a higher version. */
  lemma {:induction false} IdsAreNeverReused(states: seq<Service>, steps: seq<Step>, i: nat, j: nat, a: nat)
    requires Run(states, steps) && i < |steps| && steps[i].Admit? && states[i + 1] != states[i]
    requires j <= i && a in states[j].heap
    ensures var t := states[i + 1];
      && t.nextAttempt in t.heap && t.nextAttempt != a
      && (steps[i].id == 0 ==> t.heap[t.nextAttempt].id != states[j].heap[a].id)
      && (steps[i].id != 0 ==> t.heap[t.nextAttempt].id == steps[i].id)
      && (t.heap[t.nextAttempt].id == states[j].heap[a].id ==>
            states[j].heap[a].version < t.heap[t.nextAttempt].version)
  {
    assert |states| == |steps| + 1;
    hide Inv, Progress, Run, Next, Refused;
    RunInv(states, steps, j);
    RunInv(states, steps, i + 1);
    RunProgress(states, steps, j, i);
    RunStep(states, steps, i);
    AdmissionIsNew(states[j], states[i], steps[i], states[i + 1], a);
  }

  lemma AdmissionIsNew(early: Service, s: Service, step: Step, t: Service, a: nat)
    requires Inv(early) && Inv(t) && Progress(early, s) && a in early.heap
    requires step.Admit? && Next(s, step, t) && t != s
    ensures t.nextAttempt in t.heap && t.nextAttempt != a
    ensures step.id == 0 ==> t.heap[t.nextAttempt].id != early.heap[a].id
    ensures step.id != 0 ==> t.heap[t.nextAttempt].id == step.id
    ensures t.heap[t.nextAttempt].id == early.heap[a].id ==> early.heap[a].version < t.heap[t.nextAttempt].version
  {
    hide EntriesOk, MapOk, CurrentIsLast, UnfinishedAreCurrent, CompletionsDiffer, Bounded, Refused;
    EveryEntry(early, a);
    assert a in t.heap && t.heap[a] == s.heap[a];
    hide Progress, EntryOk;
    assert a < t.nextAttempt;
  }

  /** Close waits for the attempts it found in the registry. Once they are done, no run is
      unfinished, and no attempt is made or changed ever after. */
  lemma {:induction false} CloseJoinsEverything(states: seq<Service>, steps: seq<Step>, close: nat, joined: nat,
                                                later: nat)
    requires Run(states, steps) && close < joined <= later < |states| && steps[close] == Close
    requires forall a | a in states[close].entries.Values :: a in states[joined].heap && states[joined].heap[a].done
    ensures forall a | a in states[joined].heap :: states[joined].heap[a].done
    ensures states[later].heap == states[joined].heap
  {
    assert |states| == |steps| + 1;
    hide Inv, Progress, Run;
    RunInv(states, steps, close);
    RunProgress(states, steps, close + 1, joined);
    RunProgress(states, steps, joined, later);
    RunStep(states, steps, close);
    JoinedAreAll(states[close], states[close + 1], states[joined]);
    NothingMoves(states[close + 1], states[joined], states[later]);
  }

  lemma RunStep(states: seq<Service>, steps: seq<Step>, i: nat)
    requires Run(states, steps) && i < |steps|
    ensures Next(states[i], steps[i], states[i + 1])
  {
  }

  lemma JoinedAreAll(s: Service, c: Service, j: Service)
    requires Inv(s) && c == AfterClose(s) && Progress(c, j)
    requires forall a | a in s.entries.Values :: a in j.heap && j.heap[a].done
    ensures forall a | a in j.heap :: j.heap[a].done
  {
  }

  lemma NothingMoves(c: Service, j: Service, l: Service)
    requires c.closed && Progress(c, j) && Progress(j, l)
    requires forall a | a in j.heap :: j.heap[a].done
    ensures l.heap == j.heap
  {
  }

  /** A callback or a completion of one attempt, or a stop that names it, reaches no other
      attempt; and once an attempt is over or replaced, its callbacks do nothing. */
  lemma {:induction false} AttemptsAreIsolated(s: Service, step: Step, t: Service, a: nat, b: nat)
    requires Inv(s) && Next(s, step, t) && b in s.heap && a != b
    requires match step
      case Ready(x) => x == a
      case Diagnostic(x, _) => x == a
      case Complete(x, _, _) => x == a
      case StopAttempt(_, x) => x == a
      case _ => false
    ensures t.heap[b] == s.heap[b]
    ensures !s.heap[b].done ==> Current(t, b)
    ensures (step.Ready? || step.Diagnostic?) && (s.heap[a].done || !Current(s, a)) ==> t == s
    ensures step.StopAttempt? && (step.id !in s.entries || s.entries[step.id] != a) ==> t == s
  {
    hide EntriesOk, MapOk, CurrentIsLast, CompletionsDiffer, VersionsGrow, Bounded;
    EveryEntry(s, b);
    if a in s.heap { EveryEntry(s, a); }
    if !s.heap[b].done {
      assert Current(s, b);
      NextInv(s, step, t);
    }
  }

  /** Eviction never forgets the run that just completed. */
  lemma {:induction false} CompletedRunIsKept(s: Service, a: nat, failed: bool, summary: string, t: Service)
    requires Inv(s) && Next(s, Complete(a, failed, summary), t)
    ensures Current(t, a) && s.heap[a].id in TerminalIds(t)
  {
    hide VersionsGrow, CompletionsDiffer, Bounded, CurrentIsLast;
    var u := Completion(s, a, failed, summary);
    var id := s.heap[a].id;
    assert Current(s, a);
    forall k | k in TerminalIds(u)
      ensures CompletedOf(u, k) <= CompletedOf(u, id)
    {
      assert EntryOk(s, s.entries[k]);
    }
    hide EntriesOk;
    NewestIsKept(u, t, id);
  }

  lemma NewestIsKept(u: Service, t: Service, id: nat)
    requires Evicted(u, t) && id in TerminalIds(u)
    requires forall k | k in TerminalIds(u) :: CompletedOf(u, k) <= CompletedOf(u, id)
    ensures id in TerminalIds(t)
  {
  }

  // -------------------------------------------------------------------- service

  /** The ids of seq are those of set, each once. */
  ghost predicate Enumerates(ids: seq<nat>, all: set<nat>) {
    && (forall i, j | 0 <= i < j < |ids| :: ids[i] != ids[j])
    && (forall id :: id in ids <==> id in all)
  }

  lemma {:induction false} EnumerationSize(ids: seq<nat>, all: set<nat>)
    requires Enumerates(ids, all)
    ensures |ids| == |all|
  {
    if ids == [] {
      assert all == {};
    } else {
      assert forall id :: id in ids[1..] <==> id in ids && id != ids[0];
      EnumerationSize(ids[1..], all - {ids[0]});
    }
  }

  ghost predicate Ascending(s: Service, ids: seq<nat>) {
    forall i, j | 0 <= i < j < |ids| :: CompletedOf(s, ids[i]) < CompletedOf(s, ids[j])
  }

  lemma AscendingDiffer(s: Service, ids: seq<nat>)
    requires Ascending(s, ids)
    ensures forall i, j | 0 <= i < j < |ids| :: ids[i] != ids[j]
  {
  }

  lemma NothingAscends(s: Service)
    ensures Ascending(s, [])
  {
  }

  lemma InsertAscending(s: Service, sorted: seq<nat>, at: nat, id: nat)
    requires Ascending(s, sorted) && at <= |sorted|
    requires forall k | at <= k < |sorted| :: CompletedOf(s, id) < CompletedOf(s, sorted[k])
    requires at > 0 ==> CompletedOf(s, sorted[at - 1]) < CompletedOf(s, id)
    ensures Ascending(s, sorted[..at] + [id] + sorted[at..])
    ensures forall k :: k in sorted[..at] + [id] + sorted[at..] <==> k in sorted || k == id
  {
    hide CompletedOf;
    var longer := sorted[..at] + [id] + sorted[at..];
    assert forall k | 0 <= k < |longer| ::
        longer[k] == if k < at then sorted[k] else if k == at then id else sorted[k - 1];
    Inserted(sorted, at, id);
  }

  lemma Inserted(s: seq<nat>, at: nat, x: nat)
    requires at <= |s|
    ensures forall k :: k in s[..at] + [x] + s[at..] <==> k in s || k == x
  {
    assert s == s[..at] + s[at..];
  }

  /** Some oldest terminal entries are gone; terminal lists the others, oldest first. */
  ghost predicate Evicting(s: Service, t: Service, terminal: seq<nat>) {
    && t == s.(entries := t.entries)
    && t.entries.Keys <= s.entries.Keys && (forall id | id in t.entries :: t.entries[id] == s.entries[id])
    && LiveIds(t) == LiveIds(s)
    && Enumerates(terminal, TerminalIds(t)) && Ascending(s, terminal)
    && (forall kept, gone | kept in terminal && gone in s.entries && gone !in t.entries ::
          CompletedOf(s, gone) < CompletedOf(s, kept))
  }

  lemma EvictOldest(s: Service, t: Service, terminal: seq<nat>)
    requires Evicting(s, t, terminal) && terminal != []
    ensures Evicting(s, t.(entries := t.entries - {terminal[0]}), terminal[1..])
  {
    var u := t.(entries := t.entries - {terminal[0]});
    assert terminal[0] in TerminalIds(t);
    assert forall k :: k in terminal[1..] <==> k in terminal && k != terminal[0];
    assert TerminalIds(u) == TerminalIds(t) - {terminal[0]};
    assert LiveIds(u) == LiveIds(t);
  }

  class TunnelService {
    var entries: map<nat, nat>
    var heap: map<nat, Entry>
    var nextID: nat
    var nextAttempt: nat
    var nextCompletion: nat
    var closed: bool

    constructor ()
      ensures S() == Fresh
    {
      entries, heap := map[], map[];
      nextID, nextAttempt, nextCompletion := 0, 0, 0;
      closed := false;
    }

    ghost function S(): Service
      reads this
    {
      Service(entries, heap, nextID, nextAttempt, nextCompletion, closed)
    }

    /** Counts live entries, after the checks that need no count. */
    method AdmitLocked(id: nat, connection: nat) returns (refusal: Option<Refusal>)
      requires Inv(S())
      ensures refusal == Refused(S(), id, connection)
    {
      hide EntriesOk, CurrentIsLast, UnfinishedAreCurrent, CompletionsDiffer, VersionsGrow, Bounded, LiveIds;
      if closed {
        return Some(Conflict);
      }
      if id != 0 {
        if id !in entries {
          return Some(NotFound);
        }
        var entry := heap[entries[id]];
        if entry.state.Live() || entry.connection != connection {
          return Some(Conflict);
        }
      }
      var live := CountLive();
      return if live >= MAX_LIVE then Some(Conflict) else None;
    }

    method CountLive() returns (live: nat)
      requires MapOk(S())
      ensures live == |LiveIds(S())|
    {
      hide LiveIds, MapOk;
      live := 0;
      var rest := entries.Keys;
      NoneCounted(S());
      while rest != {}
        invariant rest <= entries.Keys
        invariant live == |LiveIds(S()) - rest|
      {
        var k :| k in rest;
        CountOneMore(S(), rest, k);
        rest := rest - {k};
        if heap[entries[k]].state.Live() {
          live := live + 1;
        }
      }
      assert LiveIds(S()) - {} == LiveIds(S());
    }

    /** Everything other goroutines do while no lock is held: any number of sections. */
    method Others()
      requires Inv(S())
      modifies this
      ensures Inv(S()) && Progress(old(S()), S())
    {
      var sections: nat := *;
      while sections > 0
        invariant Inv(S()) && Progress(old(S()), S())
      {
        var step: Step := *;
        ghost var s := S();
        Perform(step);
        ProgressTransitive(old(S()), s, S());
        sections := sections - 1;
      }
    }

    /** Start (id 0) or Retry: admission is checked, the connection is read without the
        lock, and admission is checked again. */
    method Start(id: nat, connection: nat, remote: bool) returns (r: Option<Entry>, ghost at: Service)
      requires Inv(S())
      modifies this
      ensures Inv(at) && Progress(old(S()), at)
      ensures Inv(S()) && Next(at, Admit(id, connection, remote), S())
      ensures r.Some? <==> Refused(at, id, connection).None?
      ensures r.Some? ==> nextAttempt in heap && r.value == heap[nextAttempt] && !r.value.done
      ensures Refused(old(S()), id, connection).Some? ==> at == S() == old(S())
    {
      hide Inv, Progress, Refused, Admitted, Next;
      at := S();
      StayPut(at);
      var refusal := AdmitLocked(id, connection);
      if refusal.Some? {
        RefusalStays(at, id, connection, remote);
        return None, at;
      }
      Others();
      at := S();
      r := AdmitSection(id, connection, remote);
    }

    method AdmitSection(id: nat, connection: nat, remote: bool) returns (r: Option<Entry>)
      requires Inv(S())
      modifies this
      ensures Inv(S()) && Next(old(S()), Admit(id, connection, remote), S())
      ensures r.Some? <==> Refused(old(S()), id, connection).None?
      ensures r.Some? ==> nextAttempt in heap && r.value == heap[nextAttempt] && !r.value.done
    {
      ghost var s := S();
      var refusal := AdmitLocked(id, connection);
      if refusal.Some? {
        return None;
      }
      AdmitInv(s, id, connection, remote);
      var entry := AdmitEntry(id, connection, remote);
      r := Some(entry);
    }

    method AdmitEntry(id: nat, connection: nat, remote: bool) returns (entry: Entry)
      requires Refused(S(), id, connection).None?
      modifies this
      ensures S() == Admitted(old(S()), id, connection, remote)
      ensures nextAttempt in heap && entry == heap[nextAttempt] && !entry.done
    {
      var version := 1;
      var tunnel := id;
      if id == 0 {
        nextID := nextID + 1;
        tunnel := nextID;
      } else {
        version := heap[entries[id]].version + 1;
      }
      nextAttempt := nextAttempt + 1;
      entry := Entry(tunnel, version, connection, remote, Starting, Unset, "", false, false, 0);
      heap := heap[nextAttempt := entry];
      entries := entries[tunnel := nextAttempt];
    }

    method ReadyCallback(a: nat)
      requires Inv(S()) && a in heap
      modifies this
      ensures Next(old(S()), Ready(a), S())
    {
      var entry := heap[a];
      if entry.id !in entries || entries[entry.id] != a || entry.cancelled || closed || !entry.state.Starting? {
        return;
      }
      entry := entry.(state := Active, scope := LocalBound);
      if entry.remote {
        entry := entry.(scope := Unverified);
      }
      heap := heap[a := entry.(version := entry.version + 1)];
    }

    method DiagnosticCallback(a: nat, text: string)
      requires Inv(S()) && a in heap
      modifies this
      ensures Next(old(S()), Diagnostic(a, text), S())
    {
      if text == "" {
        return;
      }
      var entry := heap[a];
      if entry.id !in entries || entries[entry.id] != a || entry.cancelled || closed
         || !entry.state.Live() || entry.state.Stopping? || entry.diagnostic == text {
        return;
      }
      heap := heap[a := entry.(diagnostic := text, version := entry.version + 1)];
    }

    /** The last section of a run. */
    method CompleteRun(a: nat, failed: bool, summary: string)
      requires Inv(S()) && a in heap && !heap[a].done
      modifies this
      ensures Next(old(S()), Complete(a, failed, summary), S())
    {
      hide Inv, Completion, Evicted, CompletedOf, TerminalIds;
      CompletionReady(S(), a, failed, summary);
      FinishEntry(a, failed, summary);
      EvictLocked();
    }

    method FinishEntry(a: nat, failed: bool, summary: string)
      requires a in heap
      modifies `heap, `nextCompletion
      ensures S() == Completion(old(S()), a, failed, summary)
    {
      var entry := heap[a];
      if entry.cancelled || closed {
        entry := entry.(state := Stopped);
      } else if failed {
        entry := entry.(state := Failed, diagnostic := if entry.diagnostic == "" then summary else entry.diagnostic);
      } else {
        entry := entry.(state := Stopped);
      }
      nextCompletion := nextCompletion + 1;
      entry := entry.(cancelled := true, version := entry.version + 1, completed := nextCompletion, done := true);
      heap := heap[a := entry];
    }

    method EvictLocked()
      requires MapOk(S()) && forall i, j | i in TerminalIds(S()) && j in TerminalIds(S()) && i != j ::
        CompletedOf(S(), i) != CompletedOf(S(), j)
      modifies `entries
      ensures Evicted(old(S()), S())
    {
      ghost var s := S();
      var terminal := Terminal();
      terminal := SortByCompleted(terminal);
      EnumerationSize(terminal, TerminalIds(s));
      while |terminal| > MAX_TERMINAL
        invariant Evicting(s, S(), terminal)
        invariant |TerminalIds(s)| > MAX_TERMINAL ==> |terminal| >= MAX_TERMINAL
        invariant |TerminalIds(s)| <= MAX_TERMINAL ==> |terminal| == |TerminalIds(s)|
      {
        EvictOldest(s, S(), terminal);
        entries := entries - {terminal[0]};
        terminal := terminal[1..];
      }
      EnumerationSize(terminal, TerminalIds(S()));
    }

    method Terminal() returns (terminal: seq<nat>)
      requires MapOk(S())
      ensures Enumerates(terminal, TerminalIds(S()))
    {
      terminal := [];
      var rest := entries.Keys;
      while rest != {}
        invariant rest <= entries.Keys
        invariant Enumerates(terminal, TerminalIds(S()) - rest)
      {
        var k :| k in rest;
        if !heap[entries[k]].state.Live() {
          terminal := terminal + [k];
        }
        rest := rest - {k};
      }
    }

    method SortByCompleted(ids: seq<nat>) returns (sorted: seq<nat>)
      requires Enumerates(ids, TerminalIds(S()))
      requires forall i, j | i in ids && j in ids && i != j :: CompletedOf(S(), i) != CompletedOf(S(), j)
      ensures Enumerates(sorted, TerminalIds(S())) && Ascending(S(), sorted)
    {
      hide Ascending;
      NothingAscends(S());
      sorted := [];
      for n := 0 to |ids|
        invariant Ascending(S(), sorted)
        invariant forall id :: id in sorted <==> id in ids[..n]
      {
        var at := |sorted|;
        while at > 0 && CompletedOf(Service(entries, heap, nextID, nextAttempt, nextCompletion, closed), sorted[at - 1])
                        > CompletedOf(Service(entries, heap, nextID, nextAttempt, nextCompletion, closed), ids[n])
          invariant 0 <= at <= |sorted|
          invariant forall k | at <= k < |sorted| :: CompletedOf(S(), ids[n]) < CompletedOf(S(), sorted[k])
        {
          at := at - 1;
        }
        assert ids[..n + 1] == ids[..n] + [ids[n]];
        assert at > 0 ==> sorted[at - 1] in ids[..n];
        InsertAscending(S(), sorted, at, ids[n]);
        sorted := sorted[..at] + [ids[n]] + sorted[at..];
      }
      AscendingDiffer(S(), sorted);
      assert ids[..|ids|] == ids;
    }

    method StopTunnel(id: nat) returns (found: bool)
      requires Inv(S())
      modifies this
      ensures Next(old(S()), Stop(id), S()) && found == (id in old(entries))
    {
      if id !in entries {
        return false;
      }
      StopLocked(entries[id]);
      return true;
    }

    method StopOneAttempt(id: nat, attempt: nat)
      requires Inv(S())
      modifies this
      ensures Next(old(S()), StopAttempt(id, attempt), S())
    {
      if id !in entries || entries[id] != attempt {
        return;
      }
      StopLocked(attempt);
    }

    method StopLocked(a: nat)
      requires a in heap
      modifies `heap
      ensures S() == AfterStop(old(S()), a)
    {
      var entry := heap[a];
      if entry.state.Live() && !entry.state.Stopping? {
        entry := entry.(state := Stopping, version := entry.version + 1, cancelled := true);
      }
      heap := heap[a := entry];
    }

    method DismissTunnel(id: nat) returns (refusal: Option<Refusal>)
      requires Inv(S())
      modifies this
      ensures Next(old(S()), Dismiss(id), S())
      ensures refusal ==
        if id !in old(entries) then Some(NotFound)
        else if id in LiveIds(old(S())) then Some(Conflict)
        else None
    {
      if id !in entries {
        return Some(NotFound);
      }
      if heap[entries[id]].state.Live() {
        return Some(Conflict);
      }
      entries := entries - {id};
      return None;
    }

    /** The locked part of Close; the attempts it returns are the ones Close waits for. */
    method CloseBegin() returns (waitFor: set<nat>)
      requires MapOk(S())
      modifies `heap, `closed
      ensures Next(old(S()), Close, S()) && waitFor == old(entries).Values
    {
      hide StoppedAll, MarkedStopping;
      closed := true;
      waitFor := {};
      var rest := entries.Keys;
      ghost var before := heap;
      NothingStopped(before);
      while rest != {}
        invariant rest <= entries.Keys && closed
        invariant waitFor == (set id | id in entries && id !in rest :: entries[id])
        invariant heap == StoppedAll(before, waitFor)
      {
        var k :| k in rest;
        rest := rest - {k};
        StoppedOneMore(before, waitFor, entries[k]);
        StopLocked(entries[k]);
        waitFor := waitFor + {entries[k]};
      }
      assert waitFor == entries.Values;
    }

    /** Any one section. */
    method Perform(step: Step)
      requires Inv(S())
      modifies this
      ensures Inv(S()) && Progress(old(S()), S())
    {
      ghost var s := S();
      match step {
        case Admit(id, connection, remote) =>
          var admitted := AdmitSection(id, connection, remote);
          Proceed(s, step, S());
        case Ready(a) =>
          if a in heap {
            ReadyCallback(a);
            Proceed(s, step, S());
          }
        case Diagnostic(a, text) =>
          if a in heap {
            DiagnosticCallback(a, text);
            Proceed(s, step, S());
          }
        case Complete(a, failed, summary) =>
          if a in heap && !heap[a].done {
            CompleteRun(a, failed, summary);
            Proceed(s, step, S());
          }
        case Stop(id) =>
          var found := StopTunnel(id);
          Proceed(s, step, S());
        case StopAttempt(id, a) =>
          StopOneAttempt(id, a);
          Proceed(s, step, S());
        case Dismiss(id) =>
          var refusal := DismissTunnel(id);
          Proceed(s, step, S());
        case Close =>
          var waitFor := CloseBegin();
          Proceed(s, step, S());
      }
    }
  }

  lemma Proceed(s: Service, step: Step, t: Service)
    requires Inv(s) && Next(s, step, t)
    ensures Inv(t) && Progress(s, t)
  {
    NextInv(s, step, t);
    NextProgress(s, step, t);
  }

  lemma NoneCounted(s: Service)
    ensures LiveIds(s) - s.entries.Keys == {}
  {
  }

  lemma CountOneMore(s: Service, rest: set<nat>, k: nat)
    requires MapOk(s) && rest <= s.entries.Keys && k in rest
    ensures s.entries[k] in s.heap
    ensures |LiveIds(s) - (rest - {k})| == |LiveIds(s) - rest| + if s.heap[s.entries[k]].state.Live() then 1 else 0
  {
    if s.heap[s.entries[k]].state.Live() {
      assert LiveIds(s) - (rest - {k}) == (LiveIds(s) - rest) + {k};
    } else {
      assert LiveIds(s) - (rest - {k}) == LiveIds(s) - rest;
    }
  }

  lemma NothingStopped(heap: map<nat, Entry>)
    ensures StoppedAll(heap, {}) == heap
  {
  }

  lemma StoppedOneMore(heap: map<nat, Entry>, attempts: set<nat>, a: nat)
    requires a in heap
    ensures StoppedAll(heap, attempts).Keys == heap.Keys
    ensures StoppedAll(heap, attempts)[a := MarkedStopping(StoppedAll(heap, attempts)[a])] ==
            StoppedAll(heap, attempts + {a})
  {
  }

  lemma RefusalStays(s: Service, id: nat, connection: nat, remote: bool)
    requires Refused(s, id, connection).Some?
    ensures Next(s, Admit(id, connection, remote), s)
  {
  }

  lemma StayPut(s: Service)
    ensures Progress(s, s)
  {
  }

  lemma CompletionReady(s: Service, a: nat, failed: bool, summary: string)
    requires Inv(s) && a in s.heap && !s.heap[a].done
    ensures var u := Completion(s, a, failed, summary);
      && MapOk(u)
      && forall i, j | i in TerminalIds(u) && j in TerminalIds(u) && i != j :: CompletedOf(u, i) != CompletedOf(u, j)
  {
  }
}
