/** The catalog rows, the durable operation table and the secret store that a credential
    saga works on, as one value; the transactions on it; and what each keeps. */
module CredentialWorld {
  import opened Outcomes

  type Id = nat
  type Secret = seq<bv8>

  datatype AuthMethod = Agent | Key | Password

  /** A connection as the catalog stores it. `details` stands for every column no saga
      writes: host, port, user name, name and parent. */
  datatype Row = Row(revision: nat, auth: AuthMethod, identity: string, ref: Option<Id>, details: string)

  datatype Kind = Save | Replace | Remove | DeleteConnection

  datatype Phase = Prepared | SecretChanged | CatalogChanged | CleanupPending

  datatype Operation = Operation(
    id: Id, connection: Id, expected: nat, kind: Kind, oldRef: Option<Id>, newRef: Option<Id>,
    phase: Phase, target: Option<AuthMethod>, targetIdentity: string)
  {
    predicate Writes() { kind.Save? || kind.Replace? }

    predicate Names(r: Id) { oldRef == Some(r) || newRef == Some(r) }

    /** This is a pending removal of reference r of connection c. */
    predicate Removes(c: Id, r: Id) { connection == c && !Writes() && Early() && oldRef == Some(r) }

    predicate Early() { phase.Prepared? || phase.SecretChanged? }
  }

  /** `issued` holds every node id handed out so far; ids are never used twice. */
  datatype Catalog = Catalog(rows: map<Id, Row>, ops: map<Id, Operation>, revision: nat, issued: set<Id>)

  predicate Busy(db: Catalog, c: Id) {
    exists id | id in db.ops :: db.ops[id].connection == c
  }

  // ---------------------------------------------------------------- validation

  predicate ValidTarget(auth: AuthMethod, identity: string) {
    match auth
    case Agent => identity == ""
    case Password => identity == ""
    case Key => identity != ""
  }

  /** The shape every stored operation has, in any phase. */
  predicate ValidShape(op: Operation) {
    && op.expected > 0
    && match op.kind
       case Save => op.oldRef.None? && op.newRef.Some? && op.target == Some(Password) && op.targetIdentity == ""
       case Replace =>
         op.oldRef.Some? && op.newRef.Some? && op.oldRef != op.newRef && op.target == Some(Password) &&
           op.targetIdentity == ""
       case Remove =>
         op.oldRef.Some? && op.newRef.None? && op.target.Some? && ValidTarget(op.target.value, op.targetIdentity)
       case DeleteConnection => op.newRef.None? && op.target.None? && op.targetIdentity == ""
  }

  // -------------------------------------------------------------- transactions

  /** A transaction either commits a new catalog or is refused and changes nothing. */
  type Commit = Option<Catalog>

  function CreateTx(db: Catalog, op: Operation): Commit {
    if !ValidShape(op) || !op.phase.Prepared? then None
    else if op.connection !in db.rows || Busy(db, op.connection) || op.id in db.ops then None
    else Some(db.(ops := db.ops[op.id := op]))
  }

  predicate PhaseMayBecome(from: Phase, to: Phase) {
    || from == to
    || (from.Prepared? && to.SecretChanged?)
    || (from.SecretChanged? && to.CatalogChanged?)
    || (from.CatalogChanged? && to.CleanupPending?)
  }

  function PhaseTx(db: Catalog, id: Id, phase: Phase): Commit {
    if id !in db.ops || !PhaseMayBecome(db.ops[id].phase, phase) then None
    else Some(db.(ops := db.ops[id := db.ops[id].(phase := phase)]))
  }

  function DropTx(db: Catalog, id: Id): Commit {
    Some(db.(ops := db.ops - {id}))
  }

  /** The connection the operation asks for; None is a deleted one. */
  function Target(row: Row, op: Operation): Option<Row> {
    match op.kind
    case Save => Some(row.(revision := row.revision + 1, auth := Password, identity := "", ref := op.newRef))
    case Replace => Some(row.(revision := row.revision + 1, auth := Password, identity := "", ref := op.newRef))
    case Remove =>
      var auth := if op.target.Some? then op.target.value else row.auth;
      Some(row.(revision := row.revision + 1, auth := auth, identity := op.targetIdentity, ref := None))
    case DeleteConnection => None
  }

  /** The compare-and-swap: the row must still have the revision and the reference that
      the operation was prepared for. */
  predicate Matches(db: Catalog, op: Operation) {
    && op.connection in db.rows
    && db.rows[op.connection].revision == op.expected
    && db.rows[op.connection].ref == op.oldRef
  }

  function ApplyTx(db: Catalog, id: Id): Commit {
    if id !in db.ops then None
    else
      var op := db.ops[id];
      if op.phase.CatalogChanged? || op.phase.CleanupPending? then Some(db)
      else if !op.phase.SecretChanged? then None
      else if !Matches(db, op) then None
      else
        match Target(db.rows[op.connection], op)
        case None =>
          Some(db.(rows := db.rows - {op.connection}, ops := db.ops - {id}, revision := db.revision + 1))
        case Some(row) =>
          Some(db.(rows := db.rows[op.connection := row], ops := db.ops[id := op.(phase := CatalogChanged)],
                   revision := db.revision + 1))
  }

  // -------------------------------------------------------------- other actors

  /** What transactions of other actors can do to one connection: bump its revision
      together with any change that keeps the reference, or delete it while it has none. */
  predicate RowDrift(before: Option<Row>, after: Option<Row>) {
    match before
    case None => after.None?
    case Some(x) =>
      match after
      case None => x.ref.None?
      case Some(y) => y.ref == x.ref && x.revision <= y.revision && (x.revision == y.revision ==> x == y)
  }

  /** Any number of transactions of other actors. A foreign key keeps a connection with a
      pending operation from being deleted. */
  predicate Drift(a: Catalog, b: Catalog) {
    && b.ops == a.ops
    && a.revision <= b.revision
    && a.issued <= b.issued
    && (forall c | c in a.issued :: RowDrift(Lookup(a.rows, c), Lookup(b.rows, c)))
    && (forall c | c in b.rows && c !in a.issued && c !in a.rows :: c in b.issued && b.rows[c].ref.None?)
    && (forall id | id in a.ops && a.ops[id].connection in a.rows :: a.ops[id].connection in b.rows)
  }

  // ------------------------------------------------------------------- coverage

  /** `owner` records, for every reference ever generated, the connection it was for. */
  datatype World = World(db: Catalog, secrets: map<Id, Secret>, owner: map<Id, Id>)

  /** A reference in the catalog resolves in the store, or is the old reference of the
      pending removal of that very connection. */
  ghost predicate RefCovered(w: World, c: Id, r: Id) {
    || r in w.secrets
    || exists id | id in w.db.ops :: w.db.ops[id].Removes(c, r)
  }

  /** A stored secret is in use by its connection or named by a pending operation. */
  ghost predicate SecretCovered(w: World, r: Id) {
    && r in w.owner
    && (|| (w.owner[r] in w.db.rows && w.db.rows[w.owner[r]].ref == Some(r))
        || exists id | id in w.db.ops :: w.db.ops[id].Names(r))
  }

  ghost predicate Covered(w: World) {
    && (forall c | c in w.db.rows && w.db.rows[c].ref.Some? :: RefCovered(w, c, w.db.rows[c].ref.value))
    && (forall r | r in w.secrets :: SecretCovered(w, r))
  }

  ghost predicate RefOwned(w: World, c: Id, ref: Option<Id>) {
    ref.Some? ==> ref.value in w.owner && w.owner[ref.value] == c
  }

  ghost predicate OperationOk(w: World, id: Id)
    requires id in w.db.ops
  {
    var op := w.db.ops[id];
    && op.id == id
    && ValidShape(op)
    && op.connection in w.db.rows
    && RefOwned(w, op.connection, op.oldRef)
    && RefOwned(w, op.connection, op.newRef)
    && var row := w.db.rows[op.connection];
       if op.Early() then
         && op.expected <= row.revision
         && (op.newRef.Some? ==> row.ref != op.newRef)
         && (op.oldRef.Some? && op.oldRef.value in w.secrets ==> row.ref == op.oldRef)
       else
         && !op.kind.DeleteConnection?
         && (op.phase.CleanupPending? ==> op.kind.Replace?)
         && op.expected < row.revision
         && (row.revision == op.expected + 1 ==> Some(row.auth) == op.target && row.identity == op.targetIdentity)
         && row.ref == op.newRef
         && (op.kind.Remove? ==> op.oldRef.value !in w.secrets)
  }

  ghost predicate OnePending(db: Catalog) {
    forall i, j | i in db.ops && j in db.ops :: db.ops[i].connection == db.ops[j].connection ==> i == j
  }

  ghost predicate Inv(w: World) {
    && Covered(w)
    && OnePending(w.db)
    && w.db.rows.Keys <= w.db.issued
    && (forall c | c in w.db.rows :: RefOwned(w, c, w.db.rows[c].ref))
    && (forall id | id in w.db.ops :: OperationOk(w, id))
  }

  lemma EveryOperation(w: World, id: Id)
    requires Inv(w) && id in w.db.ops
    ensures OperationOk(w, id)
  {
  }

  lemma EveryRow(w: World, c: Id)
    requires Inv(w) && c in w.db.rows
    ensures c in w.db.issued && RefOwned(w, c, w.db.rows[c].ref)
  {
  }

  lemma Parts(w: World)
    requires Inv(w)
    ensures Covered(w) && OnePending(w.db) && w.db.rows.Keys <= w.db.issued
  {
  }

  lemma Consistent(w: World)
    requires Covered(w) && OnePending(w.db) && w.db.rows.Keys <= w.db.issued
    requires forall c | c in w.db.rows :: RefOwned(w, c, w.db.rows[c].ref)
    requires forall id | id in w.db.ops :: OperationOk(w, id)
    ensures Inv(w)
  {
  }

  lemma CoveredRow(w: World, c: Id)
    requires Covered(w) && c in w.db.rows && w.db.rows[c].ref.Some?
    ensures RefCovered(w, c, w.db.rows[c].ref.value)
  {
  }

  lemma CoveredSecret(w: World, r: Id)
    requires Covered(w) && r in w.secrets
    ensures SecretCovered(w, r)
  {
  }

  lemma AllCovered(w: World)
    requires forall c | c in w.db.rows && w.db.rows[c].ref.Some? :: RefCovered(w, c, w.db.rows[c].ref.value)
    requires forall r | r in w.secrets :: SecretCovered(w, r)
    ensures Covered(w)
  {
  }

  function SecretsOf(w: World, c: Id): map<Id, Secret> {
    map r | r in w.secrets && r in w.owner && w.owner[r] == c :: w.secrets[r]
  }

  lemma SameSecrets(w: World, v: World, c: Id)
    requires v.secrets == w.secrets && v.owner == w.owner
    ensures SecretsOf(v, c) == SecretsOf(w, c)
  {
  }

  // ------------------------------------------------------------------- tickets

  /** What one saga operation found when it was prepared: the connection's row, all the
      secrets of the connection and the catalog revision, and the secret it was given.
      `alone` says that no other actor writes the catalog, `solo` that no other
      operation was pending. */
  datatype Ticket = Ticket(
    op: Operation, row: Option<Row>, vault: map<Id, Secret>, secret: Secret, revision: nat, alone: bool, solo: bool)

  ghost predicate TicketOk(t: Ticket) {
    && t.op.phase.Prepared?
    && ValidShape(t.op)
    && (t.row.Some? ==> t.op.expected <= t.row.value.revision)
    && (t.op.newRef.Some? ==> t.op.newRef.value !in t.vault)
    && (t.op.newRef.Some? && t.row.Some? ==> t.row.value.ref != t.op.newRef)
    && (forall r :: r in t.vault <==> t.row.Some? && t.row.value.ref == Some(r))
  }

  /** The secrets of the connection once the operation's secret step was taken. */
  function SecretStepDone(t: Ticket): map<Id, Secret> {
    if t.op.newRef.Some? then t.vault[t.op.newRef.value := t.secret]
    else if t.op.oldRef.Some? then t.vault - {t.op.oldRef.value}
    else t.vault
  }

  /** The secrets of the connection once the operation is complete. */
  function VaultAfter(t: Ticket): map<Id, Secret> {
    if t.op.oldRef.Some? then SecretStepDone(t) - {t.op.oldRef.value} else SecretStepDone(t)
  }

  ghost predicate RowFrom(t: Ticket, before: Option<Row>, after: Option<Row>) {
    if t.alone then before == after else RowDrift(before, after)
  }

  ghost predicate RevisionFrom(w: World, t: Ticket, steps: nat) {
    t.alone && t.solo ==> w.db.revision == t.revision + steps && w.db.ops.Keys <= {t.op.id}
  }

  ghost predicate CouldApply(t: Ticket) {
    t.row.Some? && t.row.value.revision == t.op.expected && t.row.value.ref == t.op.oldRef
  }

  /** Nothing of the operation is left: row and secrets are those of before. */
  ghost predicate RowUntouched(w: World, t: Ticket) {
    && RowFrom(t, t.row, Lookup(w.db.rows, t.op.connection))
    && RevisionFrom(w, t, 0)
  }

  ghost predicate RowApplied(w: World, t: Ticket) {
    && CouldApply(t)
    && RowFrom(t, Target(t.row.value, t.op), Lookup(w.db.rows, t.op.connection))
    && RevisionFrom(w, t, 1)
  }

  ghost predicate Before(w: World, t: Ticket) {
    && t.op.id !in w.db.ops
    && RowUntouched(w, t)
    && SecretsOf(w, t.op.connection) == t.vault
  }

  /** The operation happened, exactly once and completely. */
  ghost predicate After(w: World, t: Ticket) {
    && t.op.id !in w.db.ops
    && RowApplied(w, t)
    && SecretsOf(w, t.op.connection) == VaultAfter(t)
  }

  /** The operation is pending in a state its own steps can lead to. */
  ghost predicate InFlight(w: World, t: Ticket) {
    && t.op.id in w.db.ops
    && w.db.ops[t.op.id] == t.op.(phase := w.db.ops[t.op.id].phase)
    && if w.db.ops[t.op.id].Early() then
         && RowUntouched(w, t)
         && SecretsOf(w, t.op.connection) in {t.vault, SecretStepDone(t)}
       else
         && RowApplied(w, t)
         && SecretsOf(w, t.op.connection) in {SecretStepDone(t), VaultAfter(t)}
  }

  /** The operation is pending, undone or done; if it is over, no later operation on the
      same connection has begun. */
  ghost predicate Tracks(w: World, t: Ticket) {
    && TicketOk(t)
    && t.op.connection in w.db.issued
    && (|| InFlight(w, t)
        || (!Busy(w.db, t.op.connection) && (Before(w, t) || After(w, t))))
  }

  // -------------------------------------------------- what each step keeps

  lemma {:induction false} DriftKeeps(w: World, db: Catalog, t: Ticket)
    requires Inv(w) && Tracks(w, t)
    requires Drift(w.db, db) && (t.alone ==> db == w.db)
    ensures Inv(w.(db := db)) && Tracks(w.(db := db), t)
    ensures Before(w, t) ==> Before(w.(db := db), t)
    ensures After(w, t) ==> After(w.(db := db), t)
  {
    hide Inv, Tracks, Before, After, Drift, SecretsOf;
    DriftKeepsInv(w, db);
    DriftFacts(w.db, db);
    DriftKeepsRow(w, db, t);
    SameSecrets(w, w.(db := db), t.op.connection);
    DriftTracks(w, db, t);
  }

  lemma DriftFacts(a: Catalog, b: Catalog)
    requires Drift(a, b)
    ensures b.ops == a.ops && a.revision <= b.revision && a.issued <= b.issued
  {
  }

  lemma {:induction false} DriftKeepsRow(w: World, db: Catalog, t: Ticket)
    requires Tracks(w, t)
    requires Drift(w.db, db)
    ensures RowDrift(Lookup(w.db.rows, t.op.connection), Lookup(db.rows, t.op.connection))
  {
    hide InFlight, Before, After, TicketOk;
  }

  lemma DriftTracks(w: World, db: Catalog, t: Ticket)
    requires Tracks(w, t) && (t.alone ==> db == w.db) && db.ops == w.db.ops && w.db.issued <= db.issued
    requires RowDrift(Lookup(w.db.rows, t.op.connection), Lookup(db.rows, t.op.connection))
    requires SecretsOf(w.(db := db), t.op.connection) == SecretsOf(w, t.op.connection)
    ensures Tracks(w.(db := db), t)
    ensures Before(w, t) ==> Before(w.(db := db), t)
    ensures After(w, t) ==> After(w.(db := db), t)
  {
    hide SecretsOf, TicketOk, SecretStepDone, VaultAfter, Target, CouldApply;
    assert Busy(db, t.op.connection) == Busy(w.db, t.op.connection);
    hide Busy;
  }

  lemma {:induction false} DriftKeepsInv(w: World, db: Catalog)
    requires Inv(w)
    requires Drift(w.db, db)
    ensures Inv(w.(db := db))
  {
    hide Inv, Covered, OperationOk;
    var v := w.(db := db);
    Parts(w);
    DriftCovers(w, db);
    forall c | c in db.rows
      ensures c in db.issued && RefOwned(v, c, db.rows[c].ref)
    {
      if c in w.db.issued { assert RowDrift(Lookup(w.db.rows, c), Lookup(db.rows, c)); EveryRow(w, c); }
    }
    forall id | id in db.ops
      ensures OperationOk(v, id)
    {
      EveryOperation(w, id);
      DriftKeepsOperation(w, db, id);
    }
    Consistent(v);
  }

  lemma DriftKeepsOperation(w: World, db: Catalog, id: Id)
    requires id in w.db.ops && OperationOk(w, id) && w.db.rows.Keys <= w.db.issued && Drift(w.db, db)
    ensures id in db.ops && OperationOk(w.(db := db), id)
  {
    var c := w.db.ops[id].connection;
    assert RowDrift(Lookup(w.db.rows, c), Lookup(db.rows, c));
    assert id in db.ops && db.ops[id] == w.db.ops[id] && c in db.rows;
    hide Drift;
  }

  lemma DriftCovers(w: World, db: Catalog)
    requires Covered(w) && w.db.rows.Keys <= w.db.issued && Drift(w.db, db)
    ensures Covered(w.(db := db))
  {
    hide Covered;
    var v := w.(db := db);
    forall c | c in db.rows && db.rows[c].ref.Some?
      ensures RefCovered(v, c, db.rows[c].ref.value)
    {
      if c in w.db.issued { assert RowDrift(Lookup(w.db.rows, c), Lookup(db.rows, c)); }
      CoveredRow(w, c);
    }
    forall r | r in v.secrets
      ensures SecretCovered(v, r)
    {
      CoveredSecret(w, r);
      var c := w.owner[r];
      if c in w.db.rows { assert RowDrift(Lookup(w.db.rows, c), Lookup(db.rows, c)); }
    }
    AllCovered(v);
  }

  /** The operation's row and its two references are all its connection's own. */
  ghost predicate Pending(w: World, t: Ticket) {
    Inv(w) && Tracks(w, t) && t.op.id in w.db.ops
  }

  /** The ticket of an operation that is about to be stored. */
  ghost predicate Opens(w: World, t: Ticket) {
    && Inv(w)
    && TicketOk(t)
    && t.op.connection in w.db.issued
    && t.row == Lookup(w.db.rows, t.op.connection)
    && t.vault == SecretsOf(w, t.op.connection)
    && t.revision == w.db.revision
    && (t.solo ==> w.db.ops.Keys <= {t.op.id})
    && t.op.id !in w.db.ops
    && RefOwned(w, t.op.connection, t.op.oldRef)
    && RefOwned(w, t.op.connection, t.op.newRef)
    && (t.op.newRef.Some? ==> t.op.newRef.value !in w.secrets)
  }

  lemma {:induction false} CreateKeeps(w: World, t: Ticket)
    requires Opens(w, t) && CreateTx(w.db, t.op).Some?
    ensures Pending(w.(db := CreateTx(w.db, t.op).value), t)
  {
    hide Inv, Covered, OperationOk, SecretsOf, TicketOk, ValidShape;
    var db := CreateTx(w.db, t.op).value;
    var v := w.(db := db);
    Parts(w);
    SameSecrets(w, v, t.op.connection);
    CoverageSurvivesOps(w, db);
    forall c | c in db.rows
      ensures RefOwned(v, c, db.rows[c].ref)
    {
      EveryRow(w, c);
    }
    forall id | id in db.ops
      ensures OperationOk(v, id)
    {
      if id == t.op.id {
        OldRefIsCurrent(w, t.op.connection, t.op.oldRef);
        CreatedOperation(w, t);
      } else {
        EveryOperation(w, id);
        KeptOperation(w, db, id);
      }
    }
    Consistent(v);
    CreateTracks(w, t);
  }

  lemma CreatedOperation(w: World, t: Ticket)
    requires Opens(w, t) && CreateTx(w.db, t.op).Some?
    requires t.op.oldRef.Some? && t.op.oldRef.value in w.secrets ==> w.db.rows[t.op.connection].ref == t.op.oldRef
    ensures OperationOk(w.(db := CreateTx(w.db, t.op).value), t.op.id)
  {
    hide Inv, SecretsOf;
  }

  lemma KeptOperation(w: World, db: Catalog, id: Id)
    requires id in w.db.ops && OperationOk(w, id) && id in db.ops && db.ops[id] == w.db.ops[id] && db.rows == w.db.rows
    ensures OperationOk(w.(db := db), id)
  {
  }

  lemma CreateTracks(w: World, t: Ticket)
    requires Opens(w, t) && CreateTx(w.db, t.op).Some?
    ensures Tracks(w.(db := CreateTx(w.db, t.op).value), t)
  {
    var v := w.(db := CreateTx(w.db, t.op).value);
    SameSecrets(w, v, t.op.connection);
    hide Inv, SecretsOf, Busy, Before, After;
    assert InFlight(v, t);
  }

  /** With nothing pending, a stored old reference is the one the connection uses. */
  lemma {:induction false} OldRefIsCurrent(w: World, c: Id, ref: Option<Id>)
    requires Inv(w) && !Busy(w.db, c) && c in w.db.rows && RefOwned(w, c, ref)
    ensures ref.Some? && ref.value in w.secrets ==> w.db.rows[c].ref == ref
  {
    hide Inv, Covered, OperationOk;
    Parts(w);
    if ref.Some? && ref.value in w.secrets {
      CoveredSecret(w, ref.value);
      forall id | id in w.db.ops
        ensures !w.db.ops[id].Names(ref.value)
      {
        EveryOperation(w, id);
        NamesOwn(w, id);
      }
    }
  }

  /** An operation names references of its own connection. */
  lemma NamesOwn(w: World, id: Id)
    requires id in w.db.ops && OperationOk(w, id)
    ensures forall r | w.db.ops[id].Names(r) :: r in w.owner && w.owner[r] == w.db.ops[id].connection
  {
  }

  /** More pending operations, or the same ones in other early phases, cover no less. */
  lemma {:induction false} CoverageSurvivesOps(w: World, db: Catalog)
    requires Covered(w) && db.rows == w.db.rows
    requires forall id | id in w.db.ops ::
      id in db.ops && db.ops[id].(phase := w.db.ops[id].phase) == w.db.ops[id] &&
        (w.db.ops[id].Early() ==> db.ops[id].Early())
    ensures Covered(w.(db := db))
  {
  }

  lemma {:induction false} PhaseKeeps(w: World, t: Ticket, phase: Phase)
    requires Pending(w, t) && PhaseTx(w.db, t.op.id, phase).Some?
    requires phase.SecretChanged? || (phase.CleanupPending? && t.op.kind.Replace?)
    ensures Pending(w.(db := PhaseTx(w.db, t.op.id, phase).value), t)
  {
    var db := PhaseTx(w.db, t.op.id, phase).value;
    var v := w.(db := db);
    assert SecretsOf(v, t.op.connection) == SecretsOf(w, t.op.connection);
    PhaseKeepsInv(w, t.op.id, phase);
    PhaseTracks(w, t, phase);
  }

  lemma {:induction false} PhaseTracks(w: World, t: Ticket, phase: Phase)
    requires Tracks(w, t) && t.op.id in w.db.ops && PhaseTx(w.db, t.op.id, phase).Some?
    requires w.db.ops[t.op.id].connection == t.op.connection
    requires phase.SecretChanged? || phase.CleanupPending?
    ensures Tracks(w.(db := PhaseTx(w.db, t.op.id, phase).value), t)
  {
  }

  lemma {:induction false} PhaseKeepsInv(w: World, op: Id, phase: Phase)
    requires Inv(w) && PhaseTx(w.db, op, phase).Some?
    requires phase.SecretChanged? || (phase.CleanupPending? && w.db.ops[op].kind.Replace?)
    ensures Inv(w.(db := PhaseTx(w.db, op, phase).value))
  {
    hide Inv, Covered, OperationOk;
    var db := PhaseTx(w.db, op, phase).value;
    var v := w.(db := db);
    Parts(w);
    CoverageSurvivesOps(w, db);
    forall c | c in db.rows
      ensures RefOwned(v, c, db.rows[c].ref)
    {
      EveryRow(w, c);
    }
    forall id | id in db.ops
      ensures OperationOk(v, id)
    {
      EveryOperation(w, id);
      PhaseKeepsOperation(w, op, phase, id);
    }
    Consistent(v);
  }

  lemma PhaseKeepsOperation(w: World, op: Id, phase: Phase, id: Id)
    requires op in w.db.ops && PhaseTx(w.db, op, phase).Some? && id in w.db.ops && OperationOk(w, id)
    requires phase.SecretChanged? || (phase.CleanupPending? && w.db.ops[op].kind.Replace?)
    ensures OperationOk(w.(db := PhaseTx(w.db, op, phase).value), id)
  {
  }

  /** The secret store is in the state an operation wants before the catalog changes. */
  ghost predicate SecretReady(w: World, op: Operation) {
    if op.Writes() then op.newRef.Some? && op.newRef.value in w.secrets
    else op.oldRef.Some? ==> op.oldRef.value !in w.secrets
  }

  lemma {:induction false} ApplyKeeps(w: World, t: Ticket)
    requires Pending(w, t) && ApplyTx(w.db, t.op.id).Some?
    requires w.db.ops[t.op.id].Early() ==> SecretReady(w, t.op)
    ensures var v := w.(db := ApplyTx(w.db, t.op.id).value);
      && Inv(v) && Tracks(v, t) && (t.op.kind.DeleteConnection? <==> t.op.id !in v.db.ops)
      && (t.op.kind.DeleteConnection? ==> After(v, t))
  {
    var op := w.db.ops[t.op.id];
    assert OperationOk(w, t.op.id);
    if op.Early() {
      ApplyKeepsInv(w, t);
      ApplyAdvances(w, t);
    }
  }

  lemma {:induction false} ApplyAdvances(w: World, t: Ticket)
    requires Pending(w, t) && ApplyTx(w.db, t.op.id).Some?
    requires w.db.ops[t.op.id].Early() && SecretReady(w, t.op)
    ensures var v := w.(db := ApplyTx(w.db, t.op.id).value);
      && Tracks(v, t) && (t.op.kind.DeleteConnection? <==> t.op.id !in v.db.ops)
      && (t.op.kind.DeleteConnection? ==> After(v, t))
  {
    hide Inv, SecretsOf, SecretReady, SecretStepDone, Busy;
    var v := w.(db := ApplyTx(w.db, t.op.id).value);
    SameSecrets(w, v, t.op.connection);
    ReadyMeansStepDone(w, t);
    PendingShape(w, t);
    RowIsTickets(w, t);
    if t.op.kind.DeleteConnection? {
      DeletedIsFree(w, t);
      StepDoneIsAfter(t);
    }
  }

  /** A pending operation is the ticket's own, in a phase its kind allows. */
  lemma PendingShape(w: World, t: Ticket)
    requires Pending(w, t)
    ensures var op := w.db.ops[t.op.id];
      && op == t.op.(phase := op.phase) && InFlight(w, t) && ValidShape(op)
      && op.connection in w.db.rows && op.connection in w.db.issued
  {
    EveryOperation(w, t.op.id);
    EveryRow(w, w.db.ops[t.op.id].connection);
    hide Inv, TicketOk, SecretsOf;
  }

  /** At the compare-and-swap, the row is the one the ticket has. */
  lemma RowIsTickets(w: World, t: Ticket)
    requires TicketOk(t) && t.op.id in w.db.ops && InFlight(w, t) && w.db.ops[t.op.id].Early()
    requires ApplyTx(w.db, t.op.id).Some?
    ensures t.op.connection in w.db.rows && t.row == Some(w.db.rows[t.op.connection]) && CouldApply(t)
  {
    hide SecretsOf, SecretStepDone;
  }

  lemma StepDoneIsAfter(t: Ticket)
    requires t.op.newRef.None?
    ensures SecretStepDone(t) == VaultAfter(t)
  {
  }

  /** No other operation works on the connection. */
  lemma DeletedIsFree(w: World, t: Ticket)
    requires Inv(w) && t.op.id in w.db.ops
    ensures forall id | id in w.db.ops && id != t.op.id :: w.db.ops[id].connection != w.db.ops[t.op.id].connection
    ensures forall db: Catalog | db.ops == w.db.ops - {t.op.id} :: !Busy(db, w.db.ops[t.op.id].connection)
  {
    Parts(w);
    hide Inv;
  }

  lemma {:induction false} ReadyMeansStepDone(w: World, t: Ticket)
    requires Pending(w, t) && w.db.ops[t.op.id].Early() && SecretReady(w, t.op)
    ensures SecretsOf(w, t.op.connection) == SecretStepDone(t)
  {
  }

  lemma {:induction false} ApplyKeepsInv(w: World, t: Ticket)
    requires Pending(w, t) && ApplyTx(w.db, t.op.id).Some?
    requires w.db.ops[t.op.id].Early() && SecretReady(w, t.op)
    ensures Inv(w.(db := ApplyTx(w.db, t.op.id).value))
  {
    hide Pending, ApplyTx, SecretReady, OperationOk, RefCovered, SecretCovered, Covered, Inv;
    var v := w.(db := ApplyTx(w.db, t.op.id).value);
    ApplyKeepsOperations(w, t);
    ApplyKeepsRefs(w, t);
    ApplyKeepsSecrets(w, t);
    AllCovered(v);
    Consistent(v);
  }

  lemma {:induction false} ApplyKeepsOperations(w: World, t: Ticket)
    requires Pending(w, t) && ApplyTx(w.db, t.op.id).Some?
    requires w.db.ops[t.op.id].Early() && SecretReady(w, t.op)
    ensures var v := w.(db := ApplyTx(w.db, t.op.id).value);
            && OnePending(v.db) && v.db.rows.Keys <= v.db.issued
            && forall id | id in v.db.ops :: OperationOk(v, id)
  {
    hide SecretReady, Inv, Covered, OperationOk, Tracks, InFlight;
    var v := w.(db := ApplyTx(w.db, t.op.id).value);
    Parts(w);
    PendingShape(w, t);
    EveryOperation(w, t.op.id);
    AppliedOperation(w, t);
    forall id | id in v.db.ops && id != t.op.id
      ensures OperationOk(v, id)
    {
      EveryOperation(w, id);
      OtherOperation(w, t, id);
    }
  }

  lemma OtherOperation(w: World, t: Ticket, id: Id)
    requires t.op.id in w.db.ops && id in w.db.ops && id != t.op.id && OperationOk(w, id) &&
      ApplyTx(w.db, t.op.id).Some?
    requires w.db.ops[t.op.id].connection != w.db.ops[id].connection
    ensures var v := w.(db := ApplyTx(w.db, t.op.id).value); id in v.db.ops && OperationOk(v, id)
  {
  }

  lemma AppliedOperation(w: World, t: Ticket)
    requires t.op.id in w.db.ops && OperationOk(w, t.op.id) && InFlight(w, t) && ApplyTx(w.db, t.op.id).Some?
    requires w.db.ops[t.op.id].Early() && SecretReady(w, t.op)
    ensures var v := w.(db := ApplyTx(w.db, t.op.id).value); t.op.id in v.db.ops ==> OperationOk(v, t.op.id)
  {
  }

  lemma {:induction false} ApplyKeepsRefs(w: World, t: Ticket)
    requires Pending(w, t) && ApplyTx(w.db, t.op.id).Some?
    requires w.db.ops[t.op.id].Early() && SecretReady(w, t.op)
    ensures var v := w.(db := ApplyTx(w.db, t.op.id).value);
            && (forall c | c in v.db.rows :: RefOwned(v, c, v.db.rows[c].ref))
            && forall d | d in v.db.rows && v.db.rows[d].ref.Some? :: RefCovered(v, d, v.db.rows[d].ref.value)
  {
    hide SecretReady, Inv, Covered, OperationOk, Tracks, InFlight, RefCovered;
    var v := w.(db := ApplyTx(w.db, t.op.id).value);
    var c := t.op.connection;
    Parts(w);
    PendingShape(w, t);
    EveryOperation(w, t.op.id);
    AppliedRow(w, t);
    forall d | d in v.db.rows
      ensures RefOwned(v, d, v.db.rows[d].ref)
      ensures v.db.rows[d].ref.Some? ==> RefCovered(v, d, v.db.rows[d].ref.value)
    {
      if d != c {
        EveryRow(w, d);
        if v.db.rows[d].ref.Some? { OthersStayCovered(w, v, c, d); }
      }
    }
  }

  /** The connection's own row after the compare-and-swap. */
  lemma AppliedRow(w: World, t: Ticket)
    requires t.op.id in w.db.ops && OperationOk(w, t.op.id) && ApplyTx(w.db, t.op.id).Some?
    requires w.db.ops[t.op.id] == t.op.(phase := w.db.ops[t.op.id].phase)
    requires w.db.ops[t.op.id].Early() && SecretReady(w, t.op)
    ensures var v := w.(db := ApplyTx(w.db, t.op.id).value); var c := t.op.connection;
      c in v.db.rows ==>
        && RefOwned(v, c, v.db.rows[c].ref)
        && (v.db.rows[c].ref.Some? ==> RefCovered(v, c, v.db.rows[c].ref.value))
  {
  }

  lemma {:induction false} ApplyKeepsSecrets(w: World, t: Ticket)
    requires Pending(w, t) && ApplyTx(w.db, t.op.id).Some?
    requires w.db.ops[t.op.id].Early() && SecretReady(w, t.op)
    ensures var v := w.(db := ApplyTx(w.db, t.op.id).value);
            forall r | r in v.secrets :: SecretCovered(v, r)
  {
    hide SecretReady, Inv, Covered, OperationOk, Tracks, InFlight, SecretCovered;
    var v := w.(db := ApplyTx(w.db, t.op.id).value);
    Parts(w);
    PendingShape(w, t);
    EveryOperation(w, t.op.id);
    forall r | r in v.secrets
      ensures SecretCovered(v, r)
    {
      CoveredSecret(w, r);
      OwnerKnown(w, r);
      if w.owner[r] == t.op.connection {
        OwnedByBusy(w, t, r);
        AppliedSecret(w, t, r);
      } else {
        OthersStayNamed(w, v, t.op.connection, r);
      }
    }
  }

  lemma OwnerKnown(w: World, r: Id)
    requires SecretCovered(w, r)
    ensures r in w.owner
  {
  }

  lemma AppliedSecret(w: World, t: Ticket, r: Id)
    requires t.op.id in w.db.ops && OperationOk(w, t.op.id) && ApplyTx(w.db, t.op.id).Some?
    requires w.db.ops[t.op.id] == t.op.(phase := w.db.ops[t.op.id].phase)
    requires w.db.ops[t.op.id].Early() && SecretReady(w, t.op)
    requires r in w.secrets && r in w.owner && w.owner[r] == t.op.connection
    requires w.db.rows[t.op.connection].ref == Some(r) || t.op.Names(r)
    ensures SecretCovered(w.(db := ApplyTx(w.db, t.op.id).value), r)
  {
    var v := w.(db := ApplyTx(w.db, t.op.id).value);
    if t.op.Writes() { assert t.op.id in v.db.ops && v.db.ops[t.op.id].Names(t.op.newRef.value); }
    if t.op.kind.Replace? { assert v.db.ops[t.op.id].Names(t.op.oldRef.value); }
  }

  lemma {:induction false} OthersStayNamed(w: World, v: World, c: Id, r: Id)
    requires Inv(w) && r in w.secrets && w.owner[r] != c && v.owner == w.owner
    requires forall d | d in w.db.rows && d != c :: d in v.db.rows && v.db.rows[d] == w.db.rows[d]
    requires forall id | id in w.db.ops && w.db.ops[id].connection != c ::
      id in v.db.ops && v.db.ops[id].(phase := w.db.ops[id].phase) == w.db.ops[id]
    ensures SecretCovered(v, r)
  {
  }

  lemma {:induction false} OthersStayCovered(w: World, v: World, c: Id, d: Id)
    requires Covered(w) && v.secrets == w.secrets && c != d
    requires d in w.db.rows && w.db.rows[d].ref.Some?
    requires forall id | id in w.db.ops && w.db.ops[id].connection != c ::
      id in v.db.ops && v.db.ops[id] == w.db.ops[id]
    ensures RefCovered(v, d, w.db.rows[d].ref.value)
  {
  }

  /** A stored secret of a connection with a pending operation is named by it. */
  lemma {:induction false} OwnedByBusy(w: World, t: Ticket, r: Id)
    requires Pending(w, t) && r in w.secrets && w.owner[r] == t.op.connection
    ensures w.db.rows[t.op.connection].ref == Some(r) || t.op.Names(r)
  {
  }

  /** Forgetting the operation now leaves nothing uncovered. */
  ghost predicate DroppableAt(w: World, id: Id)
    requires id in w.db.ops
  {
    var op := w.db.ops[id];
    if op.Early() then
      && (op.newRef.Some? ==> op.newRef.value !in w.secrets)
      && (!op.Writes() && op.oldRef.Some? && op.connection in w.db.rows && w.db.rows[op.connection].ref == op.oldRef ==>
            op.oldRef.value in w.secrets)
    else
      op.oldRef.Some? ==> op.oldRef.value !in w.secrets
  }

  lemma {:induction false} DropKeeps(w: World, t: Ticket)
    requires Pending(w, t) && DroppableAt(w, t.op.id)
    ensures var v := w.(db := DropTx(w.db, t.op.id).value);
            Inv(v) && Tracks(v, t) && (if w.db.ops[t.op.id].Early() then Before(v, t) else After(v, t))
  {
    DropKeepsInv(w, t);
    DropSettles(w, t);
  }

  lemma {:induction false} DropSettles(w: World, t: Ticket)
    requires Pending(w, t) && DroppableAt(w, t.op.id)
    ensures var v := w.(db := DropTx(w.db, t.op.id).value);
            Tracks(v, t) && (if w.db.ops[t.op.id].Early() then Before(v, t) else After(v, t))
  {
    hide Inv, SecretsOf, DroppableAt, SecretStepDone, VaultAfter, Target, TicketOk, Busy;
    var v := w.(db := DropTx(w.db, t.op.id).value);
    PendingShape(w, t);
    SettledSecrets(w, t);
    SameSecrets(w, v, t.op.connection);
    DeletedIsFree(w, t);
  }

  /** What a droppable operation has left in the store. */
  lemma SettledSecrets(w: World, t: Ticket)
    requires Pending(w, t) && DroppableAt(w, t.op.id)
    ensures SecretsOf(w, t.op.connection) == if w.db.ops[t.op.id].Early() then t.vault else VaultAfter(t)
  {
    hide Inv, Tracks;
    PendingShape(w, t);
    EveryOperation(w, t.op.id);
    TicketOf(w, t);
  }

  lemma TicketOf(w: World, t: Ticket)
    requires Tracks(w, t)
    ensures TicketOk(t)
  {
  }

  lemma {:induction false} DropKeepsInv(w: World, t: Ticket)
    requires Pending(w, t) && DroppableAt(w, t.op.id)
    ensures Inv(w.(db := DropTx(w.db, t.op.id).value))
  {
    hide Inv, Covered, OperationOk, Tracks, InFlight, DroppableAt, RefCovered, SecretCovered;
    var v := w.(db := DropTx(w.db, t.op.id).value);
    var c := t.op.connection;
    Parts(w);
    PendingShape(w, t);
    DeletedIsFree(w, t);
    forall id | id in v.db.ops
      ensures OperationOk(v, id)
    {
      EveryOperation(w, id);
      KeptOperation(w, v.db, id);
    }
    forall d | d in v.db.rows
      ensures RefOwned(v, d, v.db.rows[d].ref)
      ensures v.db.rows[d].ref.Some? ==> RefCovered(v, d, v.db.rows[d].ref.value)
    {
      EveryRow(w, d);
      if v.db.rows[d].ref.Some? {
        if d != c { OthersStayCovered(w, v, c, d); } else { DroppedRef(w, t); }
      }
    }
    forall r | r in v.secrets
      ensures SecretCovered(v, r)
    {
      CoveredSecret(w, r);
      OwnerKnown(w, r);
      if w.owner[r] == c { DroppedSecret(w, t, r); } else { OthersStayNamed(w, v, c, r); }
    }
    AllCovered(v);
    Consistent(v);
  }

  lemma DroppedRef(w: World, t: Ticket)
    requires Pending(w, t) && DroppableAt(w, t.op.id)
    requires t.op.connection in w.db.rows && w.db.rows[t.op.connection].ref.Some?
    ensures RefCovered(w.(db := DropTx(w.db, t.op.id).value), t.op.connection, w.db.rows[t.op.connection].ref.value)
  {
    Parts(w);
    PendingShape(w, t);
    DeletedIsFree(w, t);
    CoveredRow(w, t.op.connection);
    hide Inv, Covered, Tracks, InFlight;
  }

  lemma DroppedSecret(w: World, t: Ticket, r: Id)
    requires Pending(w, t) && DroppableAt(w, t.op.id)
    requires r in w.secrets && r in w.owner && w.owner[r] == t.op.connection
    ensures SecretCovered(w.(db := DropTx(w.db, t.op.id).value), r)
  {
    PendingShape(w, t);
    EveryOperation(w, t.op.id);
    OwnedByBusy(w, t, r);
    hide Inv, Covered, Tracks, InFlight;
  }

  /** Storing or restoring the secret of a reference the pending operation names. */
  ghost predicate MayPut(w: World, t: Ticket, r: Id, secret: Secret)
    requires t.op.id in w.db.ops
  {
    var op := w.db.ops[t.op.id];
    && op.Early()
    && if op.Writes() then op.newRef == Some(r) && secret == t.secret
       else op.oldRef == Some(r) && r in t.vault && secret == t.vault[r]
  }

  lemma {:induction false} PutKeeps(w: World, t: Ticket, r: Id, secret: Secret)
    requires Pending(w, t) && MayPut(w, t, r, secret)
    ensures Pending(w.(secrets := w.secrets[r := secret]), t)
  {
    assert OperationOk(w, t.op.id);
    PutTracks(w, t, r, secret);
    SecretsKeepInv(w, t, w.secrets[r := secret], r);
  }

  lemma {:induction false} PutTracks(w: World, t: Ticket, r: Id, secret: Secret)
    requires InFlight(w, t) && TicketOk(t) && t.op.connection in w.db.issued
    requires MayPut(w, t, r, secret)
    requires r in w.owner && w.owner[r] == t.op.connection
    ensures Tracks(w.(secrets := w.secrets[r := secret]), t)
  {
    var v := w.(secrets := w.secrets[r := secret]);
    assert SecretsOf(v, t.op.connection) == SecretsOf(w, t.op.connection)[r := secret];
    if t.op.Writes() {
      assert SecretStepDone(t)[r := secret] == SecretStepDone(t);
    } else {
      assert t.vault[r := secret] == t.vault;
      assert SecretStepDone(t)[r := secret] == t.vault;
    }
    assert InFlight(v, t);
  }

  /** Removing the secret of a reference the pending operation is to remove or undo. */
  ghost predicate MayErase(w: World, t: Ticket, r: Id)
    requires t.op.id in w.db.ops
  {
    var op := w.db.ops[t.op.id];
    if op.Early() && op.Writes() then op.newRef == Some(r) else op.oldRef == Some(r)
  }

  lemma {:induction false} EraseKeeps(w: World, t: Ticket, r: Id)
    requires Pending(w, t) && MayErase(w, t, r)
    ensures Pending(w.(secrets := w.secrets - {r}), t)
  {
    assert OperationOk(w, t.op.id);
    EraseTracks(w, t, r);
    SecretsKeepInv(w, t, w.secrets - {r}, r);
    hide Inv, Tracks;
  }

  lemma EraseTracks(w: World, t: Ticket, r: Id)
    requires InFlight(w, t) && TicketOk(t) && t.op.connection in w.db.issued && MayErase(w, t, r)
    ensures Tracks(w.(secrets := w.secrets - {r}), t)
  {
    var v := w.(secrets := w.secrets - {r});
    var c := t.op.connection;
    assert SecretsOf(v, c) == SecretsOf(w, c) - {r};
    ErasedSecrets(w, t, r);
    hide TicketOk, SecretsOf, SecretStepDone, VaultAfter, MayErase;
    assert InFlight(v, t);
  }

  lemma ErasedSecrets(w: World, t: Ticket, r: Id)
    requires InFlight(w, t) && TicketOk(t) && MayErase(w, t, r)
    ensures SecretsOf(w, t.op.connection) - {r} in
      if w.db.ops[t.op.id].Early() then {t.vault, SecretStepDone(t)} else {SecretStepDone(t), VaultAfter(t)}
  {
    var op := w.db.ops[t.op.id];
    if op.Early() {
      if op.Writes() {
        assert t.vault - {r} == t.vault;
        assert SecretStepDone(t) - {r} == t.vault;
      } else {
        assert SecretStepDone(t) - {r} == SecretStepDone(t);
      }
    } else {
      assert VaultAfter(t) - {r} == VaultAfter(t);
    }
    hide SecretsOf;
  }

  /** A change to the secret of one reference, when the pending operation names it. */
  lemma {:induction false} SecretsKeepInv(w: World, t: Ticket, secrets: map<Id, Secret>, r: Id)
    requires Pending(w, t)
    requires forall x | x != r :: x in secrets <==> x in w.secrets
    requires t.op.Names(r)
    requires var op := w.db.ops[t.op.id];
      if r in secrets then
        op.Early() && (op.newRef == Some(r) || op.oldRef == Some(r) == w.db.rows[t.op.connection].ref)
      else if op.Early() then if op.Writes() then op.newRef == Some(r) else op.oldRef == Some(r)
      else op.oldRef == Some(r)
    ensures Inv(w.(secrets := secrets))
  {
    hide Inv, Covered, OperationOk, Tracks, InFlight, RefCovered, SecretCovered;
    var v := w.(secrets := secrets);
    var own := w.db.ops[t.op.id];
    Parts(w);
    PendingShape(w, t);
    EveryOperation(w, t.op.id);
    NamesOwn(w, t.op.id);
    assert own.Names(r);
    forall c | c in v.db.rows
      ensures RefOwned(v, c, v.db.rows[c].ref)
      ensures v.db.rows[c].ref.Some? ==> RefCovered(v, c, v.db.rows[c].ref.value)
    {
      EveryRow(w, c);
      if v.db.rows[c].ref.Some? {
        CoveredRow(w, c);
        if v.db.rows[c].ref.value == r { ErasedRef(w, t.op.id, secrets, r, c); } else { SameRef(w, secrets, r, c); }
      }
    }
    forall x | x in v.secrets
      ensures SecretCovered(v, x)
    {
      if x == r { NamedSecret(v, t.op.id, r); } else { CoveredSecret(w, x); SameSecret(w, secrets, x); }
    }
    forall id | id in v.db.ops
      ensures OperationOk(v, id)
    {
      EveryOperation(w, id);
      SecretsKeepOperation(w, t.op.id, secrets, r, id);
    }
    AllCovered(v);
    Consistent(v);
  }

  lemma ErasedRef(w: World, own: Id, secrets: map<Id, Secret>, r: Id, c: Id)
    requires own in w.db.ops && OperationOk(w, own) && c in w.db.rows && RefOwned(w, c, w.db.rows[c].ref)
    requires w.db.rows[c].ref == Some(r) && r in w.owner && w.owner[r] == w.db.ops[own].connection
    requires r !in secrets ==>
      var op := w.db.ops[own]; if op.Early() && op.Writes() then op.newRef == Some(r) else op.oldRef == Some(r)
    ensures RefCovered(w.(secrets := secrets), c, r)
  {
    var v := w.(secrets := secrets);
    if r !in secrets { assert v.db.ops[own].Removes(c, r); }
  }

  lemma SameRef(w: World, secrets: map<Id, Secret>, r: Id, c: Id)
    requires forall x | x != r :: x in secrets <==> x in w.secrets
    requires c in w.db.rows && w.db.rows[c].ref.Some? && w.db.rows[c].ref != Some(r)
    requires RefCovered(w, c, w.db.rows[c].ref.value)
    ensures RefCovered(w.(secrets := secrets), c, w.db.rows[c].ref.value)
  {
  }

  lemma NamedSecret(v: World, id: Id, r: Id)
    requires id in v.db.ops && v.db.ops[id].Names(r) && r in v.owner
    ensures SecretCovered(v, r)
  {
  }

  lemma SameSecret(w: World, secrets: map<Id, Secret>, x: Id)
    requires SecretCovered(w, x)
    ensures SecretCovered(w.(secrets := secrets), x)
  {
  }

  lemma SecretsKeepOperation(w: World, own: Id, secrets: map<Id, Secret>, r: Id, id: Id)
    requires OnePending(w.db) && own in w.db.ops && id in w.db.ops && OperationOk(w, id)
    requires forall x | x != r :: x in secrets <==> x in w.secrets
    requires r in w.owner && w.owner[r] == w.db.ops[own].connection && w.db.ops[own].connection in w.db.rows
    requires var op := w.db.ops[own];
      r in secrets ==>
        op.Early() && (op.newRef == Some(r) || op.oldRef == Some(r) == w.db.rows[op.connection].ref)
    ensures OperationOk(w.(secrets := secrets), id)
  {
  }

  // ------------------------------------------------------------------ locality

  /** Only connection c, its operation and its secrets were worked on; everything else
      moved by other actors' transactions at most. */
  ghost predicate Local(w: World, v: World, c: Id, alone: bool) {
    && w.db.issued <= v.db.issued
    && (forall id | id in w.db.ops && w.db.ops[id].connection != c :: id in v.db.ops && v.db.ops[id] == w.db.ops[id])
    && (forall id | id in v.db.ops && v.db.ops[id].connection != c :: id in w.db.ops && w.db.ops[id].connection != c)
    && (forall d | d in w.db.issued && d != c ::
          if alone then Lookup(v.db.rows, d) == Lookup(w.db.rows, d)
            else RowDrift(Lookup(w.db.rows, d), Lookup(v.db.rows, d)))
    && (forall r | r in w.owner :: r in v.owner && v.owner[r] == w.owner[r])
    && (forall r | r in v.owner && r !in w.owner :: v.owner[r] == c)
    && (forall r | r in w.owner && w.owner[r] != c :: Lookup(v.secrets, r) == Lookup(w.secrets, r))
    && (w.db.revision <= v.db.revision)
  }

  lemma LocalTransitive(w: World, u: World, v: World, c: Id, alone: bool)
    requires Local(w, u, c, alone) && Local(u, v, c, alone)
    ensures Local(w, v, c, alone)
  {
  }

  /** Work on another connection does not touch what a ticket says. */
  lemma {:induction false} TicketsAreLocal(w: World, v: World, c: Id, t: Ticket)
    requires Inv(w) && Inv(v) && Tracks(w, t) && t.op.connection != c && Busy(w.db, c)
    requires Local(w, v, c, t.alone) && (t.op.id in w.db.ops || t.op.id !in v.db.ops)
    ensures Tracks(v, t)
    ensures t.op.id !in w.db.ops ==> (Before(w, t) ==> Before(v, t)) && (After(w, t) ==> After(v, t))
  {
    hide Inv, Local, Busy, SecretsOf, TicketOk, InFlight, Before, After;
    SecretsAreLocal(w, v, c, t.op.connection, t.alone);
    LocalIds(w, v, c, t.alone);
    PendingOrOver(w, t);
    if t.op.id in w.db.ops {
      PendingIsLocal(w, v, c, t);
    } else {
      FreeIsLocal(w, v, c, t.op.connection, t.alone);
      OverIsLocal(w, v, c, t);
    }
  }

  lemma PendingOrOver(w: World, t: Ticket)
    requires Tracks(w, t)
    ensures if t.op.id in w.db.ops then InFlight(w, t)
      else !Busy(w.db, t.op.connection) && (Before(w, t) || After(w, t))
  {
    hide SecretsOf, TicketOk, RowUntouched, RowApplied, Busy;
  }

  lemma LocalIds(w: World, v: World, c: Id, alone: bool)
    requires Local(w, v, c, alone)
    ensures w.db.issued <= v.db.issued
  {
  }

  lemma FreeIsLocal(w: World, v: World, c: Id, d: Id, alone: bool)
    requires Local(w, v, c, alone) && d != c && !Busy(w.db, d)
    ensures !Busy(v.db, d)
  {
  }

  lemma RowIsLocal(w: World, v: World, c: Id, d: Id, alone: bool)
    requires Local(w, v, c, alone) && d != c && d in w.db.issued
    ensures if alone then Lookup(v.db.rows, d) == Lookup(w.db.rows, d)
            else RowDrift(Lookup(w.db.rows, d), Lookup(v.db.rows, d))
  {
  }

  /** An operation that is over stays as it ended. */
  lemma OverIsLocal(w: World, v: World, c: Id, t: Ticket)
    requires Before(w, t) || After(w, t)
    requires t.op.connection != c && t.op.connection in w.db.issued && Busy(w.db, c) && Local(w, v, c, t.alone)
    requires SecretsOf(v, t.op.connection) == SecretsOf(w, t.op.connection) && t.op.id !in v.db.ops
    ensures Before(w, t) ==> Before(v, t)
    ensures After(w, t) ==> After(v, t)
  {
    hide Local, SecretsOf, VaultAfter, Target;
    RowIsLocal(w, v, c, t.op.connection, t.alone);
    NotSolo(w, c, t);
  }

  lemma NotSolo(w: World, c: Id, t: Ticket)
    requires Busy(w.db, c) && t.op.id !in w.db.ops
    ensures !(w.db.ops.Keys <= {t.op.id})
  {
  }

  lemma PendingIsLocal(w: World, v: World, c: Id, t: Ticket)
    requires InFlight(w, t) && t.op.connection != c && t.op.connection in w.db.issued && Busy(w.db, c) &&
      Local(w, v, c, t.alone)
    requires SecretsOf(v, t.op.connection) == SecretsOf(w, t.op.connection)
    ensures InFlight(v, t)
  {
  }

  lemma SecretsAreLocal(w: World, v: World, c: Id, d: Id, alone: bool)
    requires Inv(w) && Inv(v) && Local(w, v, c, alone) && c != d
    ensures SecretsOf(v, d) == SecretsOf(w, d)
  {
    hide Covered, OperationOk;
    forall r | r in w.secrets || r in v.secrets
      ensures r in SecretsOf(w, d) <==> r in SecretsOf(v, d)
    {
      if r in w.secrets { SecretOwned(w, r); }
      if r in v.secrets { SecretOwned(v, r); }
    }
  }

  lemma SecretOwned(w: World, r: Id)
    requires Inv(w) && r in w.secrets
    ensures r in w.owner
  {
    Parts(w);
    CoveredSecret(w, r);
  }

  /** Recovery can finish this operation: once its secret step is taken, the connection
      must still be the one it was prepared for. */
  ghost predicate Recoverable(w: World, op: Operation) {
    op.Early() && SecretReady(w, op) ==> Matches(w.db, op)
  }

  /** Recovery carries an operation on, rather than undoing it, if its catalog change is in or
      its secret step was taken. */
  ghost predicate GoesOn(w: World, op: Operation) {
    op.Early() ==> SecretReady(w, op)
  }

  /** What a successful recovery makes of the operation of a ticket: one that was over is as
      it was; one that was pending is pending still, with the same prospects, or it is done
      if it was to go on and undone if it was not. */
  ghost predicate Settles(w0: World, t: Ticket, w: World) {
    if t.op.id !in w0.db.ops then
      t.op.id !in w.db.ops && (Before(w0, t) ==> Before(w, t)) && (After(w0, t) ==> After(w, t))
    else if t.op.id in w.db.ops then
      w.db.ops[t.op.id] == w0.db.ops[t.op.id] && (GoesOn(w, w.db.ops[t.op.id]) <==> GoesOn(w0, w0.db.ops[t.op.id]))
    else if GoesOn(w0, w0.db.ops[t.op.id]) then After(w, t) else Before(w, t)
  }

  lemma PhaseAside(w: World, op: Operation, phase: Phase)
    ensures SecretReady(w, op.(phase := phase)) <==> SecretReady(w, op)
    ensures Matches(w.db, op.(phase := phase)) <==> Matches(w.db, op)
  {
  }

  lemma SettlesTransitive(w0: World, t: Ticket, w1: World, w2: World)
    requires Settles(w0, t, w1) && Settles(w1, t, w2)
    ensures Settles(w0, t, w2)
  {
    hide GoesOn, Before, After;
  }

  lemma ProspectsAreLocal(w: World, v: World, c: Id, id: Id, alone: bool)
    requires Inv(w) && Local(w, v, c, alone) && id in w.db.ops && w.db.ops[id].connection != c
    ensures GoesOn(v, w.db.ops[id]) <==> GoesOn(w, w.db.ops[id])
  {
    hide Inv, Local, OperationOk;
    EveryOperation(w, id);
    ShapeOf(w, id);
    OwnSecretsAreLocal(w, v, c, id, alone);
  }

  lemma RecoverabilityIsLocal(w: World, v: World, c: Id, id: Id)
    requires Inv(w) && Local(w, v, c, true) && id in w.db.ops && w.db.ops[id].connection != c
    ensures Recoverable(v, w.db.ops[id]) <==> Recoverable(w, w.db.ops[id])
  {
    hide Inv, Local, OperationOk;
    EveryOperation(w, id);
    var d := w.db.ops[id].connection;
    ShapeOf(w, id);
    EveryRow(w, d);
    RowIsLocal(w, v, c, d, true);
    OwnSecretsAreLocal(w, v, c, id, true);
  }

  lemma ShapeOf(w: World, id: Id)
    requires id in w.db.ops && OperationOk(w, id)
    ensures var op := w.db.ops[id]; ValidShape(op) && op.connection in w.db.rows
  {
  }

  lemma OwnSecretsAreLocal(w: World, v: World, c: Id, id: Id, alone: bool)
    requires Local(w, v, c, alone) && id in w.db.ops && OperationOk(w, id) && w.db.ops[id].connection != c
    ensures forall r | w.db.ops[id].Names(r) :: r in v.secrets <==> r in w.secrets
  {
    NamesOwn(w, id);
    hide OperationOk;
    forall r | w.db.ops[id].Names(r)
      ensures Lookup(v.secrets, r) == Lookup(w.secrets, r)
    {
    }
  }

  // ---------------------------------------------------------- steps of a worker

  /** Since w0 only the ticket's connection was worked on, and the ticket tells how. */
  ghost predicate Held(w0: World, w: World, t: Ticket, alone: bool) {
    && Inv(w)
    && Tracks(w, t)
    && (t.alone ==> alone)
    && Local(w0, w, t.op.connection, alone)
    && w.db.ops.Keys <= w0.db.ops.Keys + {t.op.id}
  }

  lemma DriftStep(w0: World, w: World, db: Catalog, t: Ticket, alone: bool)
    requires Held(w0, w, t, alone) && Drift(w.db, db) && (alone ==> db == w.db)
    ensures Held(w0, w.(db := db), t, alone) && db.ops == w.db.ops
    ensures After(w, t) ==> After(w.(db := db), t)
    ensures Before(w, t) ==> Before(w.(db := db), t)
  {
    DriftKeeps(w, db, t);
    LocalTransitive(w0, w, w.(db := db), t.op.connection, alone);
  }

  /** A step that changes only rows, operations and secrets of connection c. */
  lemma StepLocal(w0: World, w: World, v: World, c: Id, alone: bool)
    requires Local(w0, w, c, alone)
    requires v.owner == w.owner && v.db.issued == w.db.issued && w.db.revision <= v.db.revision
    requires forall d | d != c :: Lookup(v.db.rows, d) == Lookup(w.db.rows, d)
    requires forall id | id in w.db.ops && w.db.ops[id].connection != c ::
      id in v.db.ops && v.db.ops[id] == w.db.ops[id]
    requires forall id | id in v.db.ops && v.db.ops[id].connection != c ::
      id in w.db.ops && v.db.ops[id] == w.db.ops[id]
    requires forall r | r in w.owner && w.owner[r] != c :: Lookup(v.secrets, r) == Lookup(w.secrets, r)
    ensures Local(w0, v, c, alone)
  {
  }

  lemma PhaseStep(w0: World, w: World, t: Ticket, phase: Phase, alone: bool)
    requires Held(w0, w, t, alone) && t.op.id in w.db.ops && PhaseTx(w.db, t.op.id, phase).Some?
    requires phase.SecretChanged? || (phase.CleanupPending? && t.op.kind.Replace?)
    ensures Held(w0, w.(db := PhaseTx(w.db, t.op.id, phase).value), t, alone)
  {
    hide Inv, Tracks, Local;
    HeldShape(w0, w, t, alone);
    PhaseKeeps(w, t, phase);
    StepLocal(w0, w, w.(db := PhaseTx(w.db, t.op.id, phase).value), t.op.connection, alone);
  }

  lemma ApplyStep(w0: World, w: World, t: Ticket, alone: bool)
    requires Held(w0, w, t, alone) && t.op.id in w.db.ops && ApplyTx(w.db, t.op.id).Some?
    requires w.db.ops[t.op.id].Early() ==> SecretReady(w, t.op)
    ensures var v := w.(db := ApplyTx(w.db, t.op.id).value);
            && Held(w0, v, t, alone)
            && (t.op.kind.DeleteConnection? <==> t.op.id !in v.db.ops)
            && (t.op.kind.DeleteConnection? ==> After(v, t))
  {
    hide Inv, Tracks, Local, After;
    var v := w.(db := ApplyTx(w.db, t.op.id).value);
    HeldShape(w0, w, t, alone);
    ApplyKeeps(w, t);
    StepLocal(w0, w, v, t.op.connection, alone);
  }

  lemma DropStep(w0: World, w: World, t: Ticket, alone: bool)
    requires Held(w0, w, t, alone) && t.op.id in w.db.ops && DroppableAt(w, t.op.id)
    ensures var v := w.(db := DropTx(w.db, t.op.id).value);
            Held(w0, v, t, alone) && (if w.db.ops[t.op.id].Early() then Before(v, t) else After(v, t))
  {
    hide Inv, Tracks, Local, Before, After, DroppableAt;
    HeldShape(w0, w, t, alone);
    DropKeeps(w, t);
    StepLocal(w0, w, w.(db := DropTx(w.db, t.op.id).value), t.op.connection, alone);
  }

  lemma PutStep(w0: World, w: World, t: Ticket, r: Id, secret: Secret, alone: bool)
    requires Held(w0, w, t, alone) && t.op.id in w.db.ops && MayPut(w, t, r, secret)
    ensures Held(w0, w.(secrets := w.secrets[r := secret]), t, alone)
  {
    hide Inv, Tracks, Local;
    HeldShape(w0, w, t, alone);
    PutKeeps(w, t, r, secret);
    StepLocal(w0, w, w.(secrets := w.secrets[r := secret]), t.op.connection, alone);
  }

  lemma EraseStep(w0: World, w: World, t: Ticket, r: Id, alone: bool)
    requires Held(w0, w, t, alone) && t.op.id in w.db.ops && MayErase(w, t, r)
    ensures Held(w0, w.(secrets := w.secrets - {r}), t, alone)
  {
    hide Inv, Tracks, Local;
    HeldShape(w0, w, t, alone);
    EraseKeeps(w, t, r);
    StepLocal(w0, w, w.(secrets := w.secrets - {r}), t.op.connection, alone);
  }

  /** A state the pending operation can have begun in. */
  function Origin(w: World, id: Id): Ticket
    requires id in w.db.ops && w.db.ops[id].connection in w.db.rows
  {
    var op := w.db.ops[id];
    var row := w.db.rows[op.connection];
    var s := SecretsOf(w, op.connection);
    var before := if op.Early() then row else row.(revision := op.expected, ref := op.oldRef);
    var vault := if before.ref.None? then map[]
                 else map[before.ref.value := if before.ref.value in s then s[before.ref.value] else []];
    var secret := if op.newRef.Some? && op.newRef.value in s then s[op.newRef.value] else [];
    Ticket(op.(phase := Prepared), Some(before), vault, secret, 0, false, false)
  }

  /** Every pending operation of a consistent world has a ticket. */
  lemma {:induction false} TicketFor(w: World, id: Id)
    requires Inv(w) && id in w.db.ops
    ensures w.db.ops[id].connection in w.db.rows && Tracks(w, Origin(w, id)) && w.db.ops[id].id == id
  {
    assert OperationOk(w, id);
    var t := Origin(w, id);
    OriginSecrets(w, id);
    OriginRow(w, id);
    hide Inv;
    assert InFlight(w, t);
  }

  lemma OriginRow(w: World, id: Id)
    requires Inv(w) && id in w.db.ops
    ensures w.db.ops[id].connection in w.db.rows && w.db.ops[id].connection in w.db.issued
    ensures var t := Origin(w, id);
      && TicketOk(t)
      && if w.db.ops[id].Early() then RowUntouched(w, t) else RowApplied(w, t)
  {
  }

  lemma OriginSecrets(w: World, id: Id)
    requires Inv(w) && id in w.db.ops
    ensures w.db.ops[id].connection in w.db.rows
    ensures var t := Origin(w, id); var s := SecretsOf(w, w.db.ops[id].connection);
      s in (if w.db.ops[id].Early() then {t.vault, SecretStepDone(t)} else {SecretStepDone(t), VaultAfter(t)})
  {
    assert OperationOk(w, id);
    SecretsOfBusy(w, id);
    hide Inv;
    var op := w.db.ops[id];
    var s := SecretsOf(w, op.connection);
    if op.Early() {
      EarlySecrets(op, w.db.rows[op.connection].ref, s, Origin(w, id));
    } else {
      LateSecrets(op, w.db.rows[op.connection].ref, s, Origin(w, id));
    }
  }

  predicate Sole(vault: map<Id, Secret>, ref: Option<Id>, s: map<Id, Secret>) {
    vault == if ref.None? then map[] else map[ref.value := if ref.value in s then s[ref.value] else []]
  }

  lemma EarlySecrets(op: Operation, ref: Option<Id>, s: map<Id, Secret>, t: Ticket)
    requires ValidShape(op) && op.Early() && t.op == op.(phase := Prepared) && Sole(t.vault, ref, s)
    requires op.newRef.Some? && op.newRef.value in s ==> t.secret == s[op.newRef.value]
    requires forall r | r in s :: ref == Some(r) || op.Names(r)
    requires ref.Some? && !(!op.Writes() && op.oldRef == ref) ==> ref.value in s
    requires op.oldRef.Some? && op.oldRef.value in s ==> ref == op.oldRef
    ensures s == t.vault || s == SecretStepDone(t)
  {
  }

  lemma LateSecrets(op: Operation, ref: Option<Id>, s: map<Id, Secret>, t: Ticket)
    requires ValidShape(op) && !op.kind.DeleteConnection? && t.op == op.(phase := Prepared) &&
      Sole(t.vault, op.oldRef, s)
    requires op.newRef.Some? && op.newRef.value in s ==> t.secret == s[op.newRef.value]
    requires forall r | r in s :: ref == Some(r) || op.Names(r)
    requires ref == op.newRef && (ref.Some? ==> ref.value in s)
    requires op.kind.Remove? ==> op.oldRef.value !in s
    ensures s == SecretStepDone(t) || s == VaultAfter(t)
  {
  }

  /** The secrets of a connection with a pending operation. */
  lemma {:induction false} SecretsOfBusy(w: World, id: Id)
    requires Inv(w) && id in w.db.ops
    ensures var op := w.db.ops[id]; var ref := w.db.rows[op.connection].ref;
      && (forall r | r in SecretsOf(w, op.connection) :: ref == Some(r) || op.Names(r))
      && RefOwned(w, op.connection, ref)
      && (ref.Some? && !(op.Early() && !op.Writes() && op.oldRef == ref) ==> ref.value in w.secrets)
  {
  }

  lemma DropAfterDrift(w0: World, w: World, db: Catalog, t: Ticket, alone: bool)
    requires Held(w0, w, t, alone) && t.op.id in w.db.ops && DroppableAt(w, t.op.id) && Drift(w.db, db)
    ensures t.op.id in db.ops && DroppableAt(w.(db := db), t.op.id)
  {
  }

  /** A held pending operation is the ticket's own, in a phase its kind allows. */
  lemma HeldShape(w0: World, w: World, t: Ticket, alone: bool)
    requires Held(w0, w, t, alone) && t.op.id in w.db.ops
    ensures var op := w.db.ops[t.op.id];
            && op == t.op.(phase := op.phase)
            && op.connection in w.db.rows
            && ValidShape(op)
            && RefOwned(w, op.connection, op.oldRef)
            && RefOwned(w, op.connection, op.newRef)
            && (op.Early() || !op.kind.DeleteConnection?)
            && (op.phase.CleanupPending? ==> op.kind.Replace?)
            && (!op.Early() && op.kind.Remove? ==> op.oldRef.value !in w.secrets)
            && (!op.Early() && op.Writes() ==> op.newRef.value in w.secrets)
  {
  }

  lemma SecretReadyFrame(w: World, db: Catalog, op: Operation)
    ensures SecretReady(w.(db := db), op) == SecretReady(w, op)
  {
  }

  /** The ticket describes connection c as it was in w. */
  ghost predicate Describes(w: World, t: Ticket, op: Operation, secret: Secret, alone: bool) {
    && t.op == op && t.secret == secret && t.alone == alone
    && RowFrom(t, Lookup(w.db.rows, op.connection), t.row)
    && t.vault == SecretsOf(w, op.connection)
    && (alone ==> t.revision == w.db.revision)
    && (t.solo <==> w.db.ops == map[])
  }

  /** An operation a worker may start: its connection was read from this catalog and its
      new reference, if any, was just generated for it. */
  ghost predicate Startable(w: World, op: Operation) {
    && op.phase.Prepared?
    && op.connection in w.db.issued
    && (op.connection in w.db.rows ==> op.expected <= w.db.rows[op.connection].revision)
    && op.id !in w.db.ops
    && RefOwned(w, op.connection, op.oldRef)
    && RefOwned(w, op.connection, op.newRef)
    && (op.newRef.Some? ==> op.newRef.value !in w.secrets && !InUse(w, op.newRef.value))
  }

  ghost predicate InUse(w: World, r: Id) {
    || (exists c | c in w.db.rows :: w.db.rows[c].ref == Some(r))
    || (exists id | id in w.db.ops :: w.db.ops[id].Names(r))
  }

  function Open(w: World, db: Catalog, op: Operation, secret: Secret, alone: bool): Ticket {
    Ticket(op, Lookup(db.rows, op.connection), SecretsOf(w, op.connection), secret, db.revision, alone, db.ops == map[])
  }

  lemma {:induction false} OpenStep(w0: World, w: World, db: Catalog, op: Operation, secret: Secret, alone: bool)
    requires Inv(w) && Startable(w, op) && ValidShape(op) && !Busy(w.db, op.connection)
    requires Drift(w.db, db) && (alone ==> db == w.db)
    requires Local(w0, w, op.connection, alone) && w0.db == w.db
    ensures var t := Open(w, db, op, secret, alone); var u := w.(db := db);
            && Held(w0, u, t, alone) && Opens(u, t) && Describes(w, t, op, secret, alone)
  {
    hide Inv, Local, Drift, TicketOk;
    var t := Open(w, db, op, secret, alone);
    var u := w.(db := db);
    DriftKeepsInv(w, db);
    OpenRow(w, db, op);
    assert SecretsOf(u, op.connection) == t.vault;
    OpenTicket(u, t);
    LocalDrift(w0, w, db, op.connection, alone);
  }

  lemma OpenRow(w: World, db: Catalog, op: Operation)
    requires Inv(w) && Startable(w, op) && !Busy(w.db, op.connection) && Drift(w.db, db)
    ensures db.ops == w.db.ops && op.connection in db.issued
    ensures RowDrift(Lookup(w.db.rows, op.connection), Lookup(db.rows, op.connection))
    ensures op.connection in db.rows ==> op.expected <= db.rows[op.connection].revision
    ensures op.connection in db.rows && op.newRef.Some? ==> db.rows[op.connection].ref != op.newRef
  {
  }

  lemma OpenTicket(u: World, t: Ticket)
    requires Inv(u) && !Busy(u.db, t.op.connection)
    requires t.op.phase.Prepared? && ValidShape(t.op)
    requires t.row == Lookup(u.db.rows, t.op.connection) && t.vault == SecretsOf(u, t.op.connection)
    requires t.row.Some? ==> t.op.expected <= t.row.value.revision
    requires t.op.newRef.Some? ==> t.op.newRef.value !in u.secrets && (t.row.Some? ==> t.row.value.ref != t.op.newRef)
    ensures TicketOk(t)
  {
  }

  lemma LocalDrift(w0: World, w: World, db: Catalog, c: Id, alone: bool)
    requires Local(w0, w, c, alone) && Drift(w.db, db) && (alone ==> db == w.db)
    ensures Local(w0, w.(db := db), c, alone)
  {
  }

  lemma {:induction false} CreateStep(w0: World, u: World, t: Ticket, alone: bool)
    requires Held(w0, u, t, alone) && Opens(u, t) && CreateTx(u.db, t.op).Some?
    ensures Held(w0, u.(db := CreateTx(u.db, t.op).value), t, alone)
  {
    CreateKeeps(u, t);
    StepLocal(w0, u, u.(db := CreateTx(u.db, t.op).value), t.op.connection, alone);
  }

  lemma DescribesDrift(w: World, db: Catalog, op: Operation, secret: Secret, alone: bool)
    requires Drift(w.db, db) && (alone ==> db == w.db) && op.connection in w.db.issued
    ensures Describes(w, Open(w, db, op, secret, alone), op, secret, alone)
  {
  }

  lemma StartableIssued(w: World, op: Operation)
    requires Startable(w, op)
    ensures op.connection in w.db.issued && op.id !in w.db.ops && op.phase.Prepared?
  {
  }

  lemma Created(db: Catalog, op: Operation)
    requires CreateTx(db, op).Some?
    ensures var d := CreateTx(db, op).value;
      op.id in d.ops && d.ops[op.id] == op && op.phase.Prepared? && d.rows == db.rows
  {
  }

  lemma BusyRefuses(db: Catalog, op: Operation)
    requires Busy(db, op.connection)
    ensures CreateTx(db, op).None?
  {
  }

  lemma BusyDrift(w: World, db: Catalog, c: Id)
    requires Inv(w) && Drift(w.db, db) && Busy(w.db, c)
    ensures Inv(w.(db := db)) && Busy(db, c)
  {
    DriftKeepsInv(w, db);
  }

  lemma DescribesOp(w: World, t: Ticket, op: Operation, secret: Secret, alone: bool)
    requires Describes(w, t, op, secret, alone)
    ensures t.op == op && t.secret == secret && t.alone == alone
  {
  }

  /** Until the secret step, an early removal finds the old secret exactly as the ticket
      has it, and forgetting the operation is safe. */
  lemma OldSecretKnown(w0: World, w: World, t: Ticket, alone: bool)
    requires Held(w0, w, t, alone) && t.op.id in w.db.ops && !t.op.Writes() && t.op.oldRef.Some?
    requires w.db.ops[t.op.id].Early() && SecretsOf(w, t.op.connection) == t.vault
    ensures DroppableAt(w, t.op.id)
    ensures t.op.oldRef.value in w.secrets ==>
      t.op.oldRef.value in t.vault && t.vault[t.op.oldRef.value] == w.secrets[t.op.oldRef.value]
  {
  }

  lemma LocalReflexive(w: World, c: Id, alone: bool)
    ensures Local(w, w, c, alone)
  {
  }

  lemma HeldValid(w0: World, w: World, t: Ticket, alone: bool)
    requires Held(w0, w, t, alone)
    ensures Inv(w) && Local(w0, w, t.op.connection, alone)
  {
  }

  /** The world once a reference was generated for the operation's connection. */
  function W0(w: World, op: Operation): World {
    if op.newRef.Some? then w.(owner := w.owner[op.newRef.value := op.connection]) else w
  }

  lemma NewReference(w: World, op: Operation, alone: bool)
    requires Inv(w) && op.newRef.Some? && op.newRef.value !in w.owner
    requires op.phase.Prepared? && op.connection in w.db.issued && op.id !in w.db.ops
    requires op.connection in w.db.rows ==> op.expected <= w.db.rows[op.connection].revision
    requires RefOwned(w, op.connection, op.oldRef)
    ensures Inv(W0(w, op)) && Startable(W0(w, op), op) && Local(w, W0(w, op), op.connection, alone)
  {
    hide Inv, Covered, OperationOk, InUse;
    var v := W0(w, op);
    Parts(w);
    UnknownIsUnused(w, op.newRef.value);
    StillCovered(w, op);
    forall c | c in v.db.rows
      ensures RefOwned(v, c, v.db.rows[c].ref)
    {
      EveryRow(w, c);
    }
    forall id | id in v.db.ops
      ensures OperationOk(v, id)
    {
      EveryOperation(w, id);
      OperationIgnores(w, op, id);
    }
    Consistent(v);
    SameUse(w, op);
  }

  lemma OperationIgnores(w: World, op: Operation, id: Id)
    requires id in w.db.ops && OperationOk(w, id) && op.newRef.Some? && op.newRef.value !in w.owner
    ensures OperationOk(W0(w, op), id)
  {
  }

  lemma SameUse(w: World, op: Operation)
    requires op.newRef.Some?
    ensures InUse(W0(w, op), op.newRef.value) <==> InUse(w, op.newRef.value)
  {
  }

  /** A reference nobody was given is neither stored nor in use. */
  lemma UnknownIsUnused(w: World, r: Id)
    requires Inv(w) && r !in w.owner
    ensures r !in w.secrets && !InUse(w, r)
  {
    assert r in w.secrets ==> SecretCovered(w, r);
    assert forall id | id in w.db.ops :: OperationOk(w, id);
  }

  lemma StillCovered(w: World, op: Operation)
    requires Covered(w) && (op.newRef.Some? ==> op.newRef.value !in w.owner)
    ensures Covered(W0(w, op))
  {
    var v := W0(w, op);
    forall c | c in v.db.rows && v.db.rows[c].ref.Some?
      ensures RefCovered(v, c, v.db.rows[c].ref.value)
    {
      assert RefCovered(w, c, w.db.rows[c].ref.value);
    }
    forall r | r in v.secrets
      ensures SecretCovered(v, r)
    {
      assert SecretCovered(w, r);
    }
  }

  lemma DescribesNewReference(w: World, t: Ticket, op: Operation, secret: Secret, alone: bool)
    requires Inv(w) && op.newRef.Some? && op.newRef.value !in w.owner
    requires Describes(W0(w, op), t, op, secret, alone)
    ensures Describes(w, t, op, secret, alone)
  {
    hide Inv, InUse;
    UnknownIsUnused(w, op.newRef.value);
    assert SecretsOf(W0(w, op), op.connection) == SecretsOf(w, op.connection);
    hide SecretsOf;
  }

  // ----------------------------------------------------- what success comes to

  /** The operation can be carried out: the connection is the one that was read, and no
      operation on it is pending. */
  predicate Performable(db: Catalog, op: Operation) {
    Matches(db, op) && !Busy(db, op.connection)
  }

  /** The connection uses this reference, which resolves to this secret, its only one. */
  ghost predicate Remembers(w: World, c: Id, r: Id, secret: Secret) {
    && c in w.db.rows && w.db.rows[c].ref == Some(r)
    && r in w.secrets && w.secrets[r] == secret
    && forall x | x in w.secrets && x in w.owner && w.owner[x] == c :: x == r
  }

  /** The connection, if it is still there, uses no reference, and no secret of it is left. */
  ghost predicate Forgot(w: World, c: Id) {
    && (c in w.db.rows ==> w.db.rows[c].ref.None?)
    && forall x | x in w.secrets && x in w.owner :: w.owner[x] != c
  }

  /** The connection's row was rewritten once: these columns, the next revision, and the rest
      as it was. */
  predicate Became(a: Catalog, b: Catalog, c: Id, auth: AuthMethod, identity: string, ref: Option<Id>) {
    && c in a.rows && c in b.rows
    && b.rows[c] == Row(a.rows[c].revision + 1, auth, identity, ref, a.rows[c].details)
  }

  lemma WriteIsDone(w0: World, w: World, t: Ticket, op: Operation, secret: Secret, alone: bool)
    requires TicketOk(t) && After(w, t) && Describes(w0, t, op, secret, alone) && op.Writes()
    ensures Remembers(w, op.connection, op.newRef.value, secret)
    ensures alone ==> Became(w0.db, w.db, op.connection, Password, "", op.newRef)
  {
    hide SecretsOf;
    OnlyNewSecret(t);
    InSecretsOf(w, op.connection);
  }

  lemma OnlyNewSecret(t: Ticket)
    requires TicketOk(t) && CouldApply(t) && t.op.newRef.Some?
    ensures VaultAfter(t) == map[t.op.newRef.value := t.secret]
  {
  }

  lemma NoSecretLeft(t: Ticket)
    requires TicketOk(t) && CouldApply(t) && t.op.newRef.None?
    ensures VaultAfter(t) == map[]
  {
  }

  lemma InSecretsOf(w: World, c: Id)
    ensures forall x :: x in SecretsOf(w, c) <==> x in w.secrets && x in w.owner && w.owner[x] == c
    ensures forall x | x in SecretsOf(w, c) :: SecretsOf(w, c)[x] == w.secrets[x]
  {
  }

  lemma RemovalIsDone(w0: World, w: World, t: Ticket, op: Operation, alone: bool)
    requires TicketOk(t) && After(w, t) && Describes(w0, t, op, [], alone) && op.kind.Remove?
    ensures Forgot(w, op.connection)
    ensures op.target.Some? && alone ==>
      Became(w0.db, w.db, op.connection, op.target.value, op.targetIdentity, None)
  {
    hide SecretsOf;
    NoSecretLeft(t);
    InSecretsOf(w, op.connection);
  }

  lemma DeletionIsDone(w0: World, w: World, t: Ticket, op: Operation, alone: bool)
    requires TicketOk(t) && After(w, t) && Describes(w0, t, op, [], alone) && op.kind.DeleteConnection?
    ensures Forgot(w, op.connection) && op.connection !in w.db.rows
  {
    hide SecretsOf;
    NoSecretLeft(t);
    InSecretsOf(w, op.connection);
  }

  /** An operation that can be carried out can be stored, and is stored on a free connection. */
  lemma PerformableIsStored(w: World, op: Operation)
    requires Startable(w, op) && ValidShape(op)
    ensures Performable(w.db, op) ==> CreateTx(w.db, op).Some?
    ensures CreateTx(w.db, op).Some? ==> !Busy(w.db, op.connection)
  {
  }

  /** The secret of a connection that nothing is pending on can be read. */
  lemma OldSecretIsThere(w: World, op: Operation)
    requires Inv(w) && Performable(w.db, op) && op.oldRef.Some?
    ensures op.oldRef.value in w.secrets
  {
    Parts(w);
    hide Inv, Covered;
    CoveredRow(w, op.connection);
  }

  lemma HeldTicket(w0: World, w: World, t: Ticket, alone: bool)
    requires Held(w0, w, t, alone)
    ensures TicketOk(t)
  {
    hide Inv, Local, InFlight, Before, After;
  }

  lemma HeldFollows(w0: World, w: World, t: Ticket, alone: bool)
    ensures Held(w0, w, t, alone) ==> Tracks(w, t) && (t.alone ==> alone)
  {
  }

  lemma HeldFrom(w: World, t: Ticket, alone: bool)
    requires Inv(w) && Tracks(w, t) && (t.alone ==> alone)
    ensures Held(w, w, t, alone)
    ensures t.op.id in w.db.ops ==> w.db.ops[t.op.id].connection == t.op.connection
  {
  }

  lemma Keyed(w: World)
    requires Inv(w)
    ensures forall id | id in w.db.ops :: w.db.ops[id].id == id
  {
  }

  lemma OnlyOwnOperation(w: World, v: World, own: Id, alone: bool)
    requires Inv(w) && own in w.db.ops && Local(w, v, w.db.ops[own].connection, alone)
    ensures forall id | id in w.db.ops && id != own ::
      && w.db.ops[id].connection != w.db.ops[own].connection
      && id in v.db.ops && v.db.ops[id] == w.db.ops[id]
  {
  }

  lemma OtherTicket(w: World, v: World, own: Id, t: Ticket, alone: bool)
    requires Inv(w) && Inv(v) && Tracks(w, t) && own in w.db.ops && t.op.id != own && (t.alone ==> alone)
    requires Local(w, v, w.db.ops[own].connection, alone) && v.db.ops.Keys <= w.db.ops.Keys
    ensures Tracks(v, t) && Settles(w, t, v)
  {
    hide Inv, Tracks, Local, GoesOn, Before, After;
    OneTicketPerConnection(w, own, t);
    LocalWeakens(w, v, w.db.ops[own].connection, alone, t.alone);
    TicketsAreLocal(w, v, w.db.ops[own].connection, t);
    if t.op.id in w.db.ops {
      OnlyOwnOperation(w, v, own, alone);
      ProspectsAreLocal(w, v, w.db.ops[own].connection, t.op.id, alone);
    }
  }

  lemma OneTicketPerConnection(w: World, own: Id, t: Ticket)
    requires Inv(w) && Tracks(w, t) && own in w.db.ops && t.op.id != own
    ensures t.op.connection != w.db.ops[own].connection && Busy(w.db, w.db.ops[own].connection)
  {
  }

  lemma LocalWeakens(w: World, v: World, c: Id, alone: bool, lax: bool)
    requires Local(w, v, c, alone) && (lax ==> alone)
    ensures Local(w, v, c, lax)
  {
  }

  lemma DriftFollowed(w: World, db: Catalog, ticket: Option<Ticket>, alone: bool)
    requires Inv(w) && Drift(w.db, db) && (alone ==> db == w.db)
    requires ticket.Some? ==> Tracks(w, ticket.value) && (ticket.value.alone ==> alone)
    ensures Inv(w.(db := db)) && db.ops == w.db.ops
    ensures ticket.Some? ==> Tracks(w.(db := db), ticket.value) && Settles(w, ticket.value, w.(db := db))
  {
    hide Before, After;
    DriftKeepsInv(w, db);
    if ticket.Some? { DriftKeeps(w, db, ticket.value); }
  }

  // ------------------------------------------- what the other actors really do

  /** The other writers of these tables: an edit or a move of a connection, a new
      connection, and the plain deletion of one without a reference. */
  datatype Plain =
    | Bump(c: Id, auth: AuthMethod, identity: string, details: string)
    | NewConnection(c: Id, row: Row)
    | Drop(c: Id)

  function PlainTx(db: Catalog, p: Plain): Commit {
    match p
    case Bump(c, auth, identity, details) =>
      if c !in db.rows then None
      else Some(db.(rows :=
        db.rows[c := Row(db.rows[c].revision + 1, auth, identity, db.rows[c].ref, details)], revision :=
          db.revision + 1))
    case NewConnection(c, row) =>
      if c in db.issued || row.ref.Some? || row.revision != 1 then None
      else Some(db.(rows := db.rows[c := row], issued := db.issued + {c}, revision := db.revision + 1))
    case Drop(c) =>
      if c !in db.rows || db.rows[c].ref.Some? || Busy(db, c) then None
      else Some(db.(rows := db.rows - {c}, revision := db.revision + 1))
  }

  /** They are covered by what the saga is proved to withstand. */
  lemma PlainIsDrift(db: Catalog, p: Plain)
    requires db.rows.Keys <= db.issued && PlainTx(db, p).Some?
    ensures Drift(db, PlainTx(db, p).value) && PlainTx(db, p).value.rows.Keys <= PlainTx(db, p).value.issued
  {
  }

  /** An edit or a move strands a pending operation exactly between its secret step and its
      catalog step; before the one and after the other it can still be recovered. */
  lemma {:induction false} EditsStrandExactly(w: World, id: Id, p: Plain)
    requires Inv(w) && id in w.db.ops && p.Bump? && p.c == w.db.ops[id].connection && PlainTx(w.db, p).Some?
    ensures Recoverable(w.(db := PlainTx(w.db, p).value), w.db.ops[id]) <==>
      !(w.db.ops[id].Early() && SecretReady(w, w.db.ops[id]))
  {
  }

  /** A connection whose password is being saved: the secret is stored, the catalog step is
      still to come. */
  function HalfSaved(secret: Secret): World {
    var save := Operation(1, 7, 1, Save, None, Some(5), SecretChanged, Some(Password), "");
    World(Catalog(map[7 := Row(1, Agent, "", None, "")], map[1 := save], 2, {7}), map[5 := secret], map[5 := 7])
  }

  lemma HalfSavedIsConsistent(secret: Secret)
    ensures Inv(HalfSaved(secret))
  {
    var w := HalfSaved(secret);
    assert w.db.ops[1].Names(5);
    assert Covered(w) && OperationOk(w, 1);
    Consistent(w);
  }

  /** An edit that slips in between the secret step and the catalog step strands the
      operation: the world stays consistent, but recovery cannot finish. */
  lemma EditsStrandOperations(secret: Secret)
    ensures var w := HalfSaved(secret); var edit := PlainTx(w.db, Bump(7, Agent, "", "elsewhere"));
      && Inv(w) && Recoverable(w, w.db.ops[1])
      && edit.Some? && Inv(w.(db := edit.value)) && !Recoverable(w.(db := edit.value), w.db.ops[1])
      && ApplyTx(edit.value, 1).None?
  {
    hide Inv, Drift;
    var w := HalfSaved(secret);
    HalfSavedIsConsistent(secret);
    PlainIsDrift(w.db, Bump(7, Agent, "", "elsewhere"));
    DriftKeepsInv(w, PlainTx(w.db, Bump(7, Agent, "", "elsewhere")).value);
  }
}
