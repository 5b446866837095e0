/** The credential saga: a catalog and a secret store that share no transaction are kept
    consistent through a durable operation row, for every way calls can fail or crash. */
module CredentialSaga {
  import opened Outcomes
  import opened CredentialWorld

  /** How one call goes: as asked; reporting an error without or despite its effect; or
      the process dying before or after its effect. */
  datatype Fate = Healthy | FailsBefore | FailsAfter | CrashesBefore | CrashesAfter

  datatype OperationRead = Found(op: Operation) | Absent | Broken

  datatype SecretRead = Value(secret: Secret) | Missing | Unavailable

  /** Nondeterminism, switched off by `calm`. */
  method NextFate(calm: bool) returns (fate: Fate)
    ensures calm ==> fate.Healthy?
  {
    if calm {
      fate := Healthy;
    } else {
      fate := *;
    }
  }

  class Repository {
    var db: Catalog
    const calm: bool   // calls never fail or crash
    const alone: bool  // no other actor writes the catalog

    constructor (db: Catalog, calm: bool, alone: bool)
      ensures this.db == db && this.calm == calm && this.alone == alone
    {
      this.db := db;
      this.calm := calm;
      this.alone := alone;
    }

    /** Any number of transactions of other actors. */
    method OtherActors()
      modifies this
      ensures Drift(old(db), db) && (alone ==> db == old(db))
    {
      if !alone {
        var next: Catalog := *;
        if Drift(db, next) {
          db := next;
        }
      }
    }

    /** The outcome of a transaction; `false` stands for a reported error. */
    method Finish(tx: Commit) returns (r: Call<bool>)
      modifies this
      ensures db == old(db) || tx == Some(db)
      ensures r == Done(true) ==> tx == Some(db)
      ensures calm ==> r == Done(tx.Some?) && (tx.Some? ==> tx == Some(db)) && (tx.None? ==> db == old(db))
    {
      var fate := NextFate(calm);
      if tx.Some? && (fate.Healthy? || fate.FailsAfter? || fate.CrashesAfter?) {
        db := tx.value;
      }
      if fate.CrashesBefore? || fate.CrashesAfter? {
        return Crashed;
      }
      return Done(fate.Healthy? && tx.Some?);
    }

    method CreateCredentialOperation(op: Operation) returns (r: Call<bool>, ghost mid: Catalog)
      modifies this
      ensures Drift(old(db), mid) && (alone ==> mid == old(db))
      ensures db == mid || CreateTx(mid, op) == Some(db)
      ensures r == Done(true) ==> CreateTx(mid, op) == Some(db)
      ensures calm ==> r == Done(CreateTx(mid, op).Some?)
    {
      OtherActors();
      mid := db;
      r := Finish(CreateTx(db, op));
    }

    method SetCredentialOperationPhase(id: Id, phase: Phase) returns (r: Call<bool>, ghost mid: Catalog)
      modifies this
      ensures Drift(old(db), mid) && (alone ==> mid == old(db))
      ensures db == mid || PhaseTx(mid, id, phase) == Some(db)
      ensures r == Done(true) ==> PhaseTx(mid, id, phase) == Some(db)
      ensures calm ==> r == Done(PhaseTx(mid, id, phase).Some?)
    {
      OtherActors();
      mid := db;
      r := Finish(PhaseTx(db, id, phase));
    }

    method ApplyCredentialOperation(id: Id) returns (r: Call<bool>, ghost mid: Catalog)
      modifies this
      ensures Drift(old(db), mid) && (alone ==> mid == old(db))
      ensures db == mid || ApplyTx(mid, id) == Some(db)
      ensures r == Done(true) ==> ApplyTx(mid, id) == Some(db)
      ensures calm ==> r == Done(ApplyTx(mid, id).Some?)
    {
      OtherActors();
      mid := db;
      r := Finish(ApplyTx(db, id));
    }

    method DeleteCredentialOperation(id: Id) returns (r: Call<bool>, ghost mid: Catalog)
      modifies this
      ensures Drift(old(db), mid) && (alone ==> mid == old(db))
      ensures db == mid || DropTx(mid, id) == Some(db)
      ensures r == Done(true) ==> DropTx(mid, id) == Some(db)
      ensures calm ==> r == Done(true)
    {
      OtherActors();
      mid := db;
      r := Finish(DropTx(db, id));
    }

    method GetCredentialOperation(id: Id) returns (r: Call<OperationRead>)
      modifies this
      ensures Drift(old(db), db) && (alone ==> db == old(db))
      ensures r.Done? && r.value.Found? ==> id in db.ops && r.value.op == db.ops[id]
      ensures r.Done? && r.value.Absent? ==> id !in db.ops
      ensures calm ==> r.Done? && !r.value.Broken?
    {
      OtherActors();
      var fate := NextFate(calm);
      match fate {
        case Healthy => r := Done(if id in db.ops then Found(db.ops[id]) else Absent);
        case FailsBefore => r := Done(Broken);
        case FailsAfter => r := Done(Broken);
        case CrashesBefore => r := Crashed;
        case CrashesAfter => r := Crashed;
      }
    }

    /** Each pending row once; None is a reported error. */
    method ListCredentialOperations() returns (r: Call<Option<seq<Operation>>>)
      requires KeyedById(db.ops)
      modifies this
      ensures Drift(old(db), db) && (alone ==> db == old(db))
      ensures r.Done? && r.value.Some? ==> Lists(r.value.value, db.ops)
      ensures calm ==> r.Done? && r.value.Some?
    {
      OtherActors();
      var fate := NextFate(calm);
      if fate.CrashesBefore? || fate.CrashesAfter? {
        return Crashed;
      }
      if !fate.Healthy? {
        return Done(None);
      }
      var list: seq<Operation> := [];
      var rest := db.ops.Keys;
      while rest != {}
        invariant rest <= db.ops.Keys
        invariant forall i | 0 <= i < |list| :: list[i].id in db.ops.Keys - rest && db.ops[list[i].id] == list[i]
        invariant forall i, j | 0 <= i < j < |list| :: list[i].id != list[j].id
        invariant forall id | id in db.ops.Keys - rest :: db.ops[id] in list
      {
        var id :| id in rest;
        ghost var shorter := list;
        list := list + [db.ops[id]];
        rest := rest - {id};
        assert forall k | k in db.ops.Keys - rest :: k == id || db.ops[k] in shorter;
      }
      return Done(Some(list));
    }
  }

  ghost predicate KeyedById(ops: map<Id, Operation>) {
    forall id | id in ops :: ops[id].id == id
  }

  /** A list holds the rows of a table, each once. */
  ghost predicate Lists(list: seq<Operation>, ops: map<Id, Operation>) {
    && (forall i | 0 <= i < |list| :: list[i].id in ops && ops[list[i].id] == list[i])
    && (forall i, j | 0 <= i < j < |list| :: list[i].id != list[j].id)
    && (forall id | id in ops :: ops[id].id == id && ops[id] in list)
  }

  lemma ListedRows(list: seq<Operation>, ops: map<Id, Operation>)
    requires Lists(list, ops)
    ensures forall i | 0 <= i < |list| :: list[i].id in ops && ops[list[i].id] == list[i]
    ensures forall i, j | 0 <= i < j < |list| :: list[i].id != list[j].id
    ensures list == [] <==> ops == map[]
  {
    assert forall id | id in ops :: ops[id] in list;
    if list == [] {
      assert forall id :: id !in ops;
      assert ops == map[];
    } else {
      assert list[0].id in ops;
    }
  }

  lemma AllListed(list: seq<Operation>, ops: map<Id, Operation>)
    requires Lists(list, ops)
    ensures forall id | id in ops :: exists j | 0 <= j < |list| :: list[j] == ops[id] && list[j].id == id
  {
    forall id | id in ops
      ensures exists j | 0 <= j < |list| :: list[j] == ops[id] && list[j].id == id
    {
      assert ops[id] in list;
    }
  }

  class SecretStore {
    var secrets: map<Id, Secret>
    const calm: bool

    constructor (secrets: map<Id, Secret>, calm: bool)
      ensures this.secrets == secrets && this.calm == calm
    {
      this.secrets := secrets;
      this.calm := calm;
    }

    method Set(ref: Id, secret: Secret) returns (r: Call<bool>)
      modifies this
      ensures secrets == old(secrets) || secrets == old(secrets)[ref := secret]
      ensures r == Done(true) ==> secrets == old(secrets)[ref := secret]
      ensures calm ==> r == Done(true)
    {
      var fate := NextFate(calm);
      if fate.Healthy? || fate.FailsAfter? || fate.CrashesAfter? {
        secrets := secrets[ref := secret];
      }
      return if fate.CrashesBefore? || fate.CrashesAfter? then Crashed else Done(fate.Healthy?);
    }

    method Get(ref: Id) returns (r: Call<SecretRead>)
      ensures r.Done? && r.value.Value? ==> ref in secrets && r.value.secret == secrets[ref]
      ensures r.Done? && r.value.Missing? ==> ref !in secrets
      ensures calm ==> r.Done? && !r.value.Unavailable?
    {
      var fate := NextFate(calm);
      match fate {
        case Healthy => r := Done(if ref in secrets then Value(secrets[ref]) else Missing);
        case FailsBefore => r := Done(Unavailable);
        case FailsAfter => r := Done(Unavailable);
        case CrashesBefore => r := Crashed;
        case CrashesAfter => r := Crashed;
      }
    }

    method Delete(ref: Id) returns (r: Call<bool>)
      modifies this
      ensures secrets == old(secrets) || secrets == old(secrets) - {ref}
      ensures r == Done(true) ==> secrets == old(secrets) - {ref}
      ensures calm ==> r == Done(true)
    {
      var fate := NextFate(calm);
      if fate.Healthy? || fate.FailsAfter? || fate.CrashesAfter? {
        secrets := secrets - {ref};
      }
      return if fate.CrashesBefore? || fate.CrashesAfter? then Crashed else Done(fate.Healthy?);
    }
  }

  datatype Verdict = Gone | StillPresent | Unverified

  datatype ApplyState = Unknown | Unchanged | Applied | Completed

  /** A connection as some earlier read of the catalog returned it. */
  datatype Connection = Connection(id: Id, revision: nat, ref: Option<Id>)

  class CredentialSaga {
    const repository: Repository
    const store: SecretStore
    ghost var owner: map<Id, Id>  // the connection each reference was generated for

    constructor (repository: Repository, store: SecretStore, ghost owner: map<Id, Id>)
      requires repository.calm == store.calm && Inv(World(repository.db, store.secrets, owner))
      ensures this.repository == repository && this.store == store && this.owner == owner
      ensures Valid()
    {
      this.repository := repository;
      this.store := store;
      this.owner := owner;
    }

    ghost function W(): World
      reads this, repository, store
    {
      World(repository.db, store.secrets, owner)
    }

    ghost predicate Valid()
      reads this, repository, store
    {
      repository.calm == store.calm && Inv(W())
    }

    ghost predicate Kept(w0: World, t: Ticket)
      reads this, repository, store
    {
      repository.calm == store.calm && Held(w0, W(), t, repository.alone)
    }

    /** The same, with the operation still pending. */
    ghost predicate Going(w0: World, t: Ticket)
      reads this, repository, store
    {
      Kept(w0, t) && t.op.id in repository.db.ops
    }

    ghost function PhaseOf(t: Ticket): Phase
      reads this, repository, store
      requires t.op.id in repository.db.ops
    {
      repository.db.ops[t.op.id].phase
    }

    // ------------------------------------------------- tracked repository calls

    method SetPhase(operation: Operation, phase: Phase, ghost w0: World, ghost t: Ticket) returns (r: Call<bool>)
      requires Going(w0, t) && operation.id == t.op.id
      requires phase.SecretChanged? || (phase.CleanupPending? && t.op.kind.Replace?)
      modifies repository
      ensures Going(w0, t) && PhaseOf(t) in {old(PhaseOf(t)), phase}
      ensures r == Done(true) ==> PhaseOf(t) == phase && PhaseMayBecome(old(PhaseOf(t)), phase)
      ensures repository.calm ==> r == Done(PhaseMayBecome(old(PhaseOf(t)), phase))
      ensures repository.alone ==> repository.db.rows == old(repository.db.rows)
    {
      hide Held, Drift;
      ghost var w := W();
      ghost var mid;
      r, mid := repository.SetCredentialOperationPhase(operation.id, phase);
      DriftStep(w0, w, mid, t, repository.alone);
      if PhaseTx(mid, operation.id, phase).Some? {
        PhaseStep(w0, w.(db := mid), t, phase, repository.alone);
      }
    }

    method DropOperation(operation: Operation, ghost w0: World, ghost t: Ticket) returns (r: Call<bool>)
      requires Going(w0, t) && operation.id == t.op.id
      requires DroppableAt(W(), t.op.id)
      modifies repository
      ensures Kept(w0, t)
      ensures t.op.id in repository.db.ops ==> PhaseOf(t) == old(PhaseOf(t))
      ensures t.op.id !in repository.db.ops ==> if old(repository.db.ops[t.op.id].Early()) then Before(W(), t)
        else After(W(), t)
      ensures r == Done(true) ==> t.op.id !in repository.db.ops
      ensures repository.calm ==> r == Done(true)
    {
      hide Held, Drift, DroppableAt, Before, After;
      ghost var w := W();
      ghost var mid;
      r, mid := repository.DeleteCredentialOperation(operation.id);
      DriftStep(w0, w, mid, t, repository.alone);
      DropAfterDrift(w0, w, mid, t, repository.alone);
      DropStep(w0, w.(db := mid), t, repository.alone);
    }

    // --------------------------------------------------- verified store changes

    /** deleteAndVerify: what counts is what a read finds afterwards. */
    method DeleteAndVerify(ref: Id, ghost w0: World, ghost t: Ticket) returns (r: Call<Verdict>)
      requires Going(w0, t) && MayErase(W(), t, ref)
      modifies store
      ensures Going(w0, t)
      ensures store.secrets == old(store.secrets) || store.secrets == old(store.secrets) - {ref}
      ensures r == Done(Gone) ==> ref !in store.secrets
      ensures r == Done(StillPresent) ==> ref in store.secrets
      ensures store.calm ==> r == Done(Gone)
    {
      hide Held;
      EraseStep(w0, W(), t, ref, repository.alone);
      var deleted :- store.Delete(ref);
      var read :- store.Get(ref);
      match read {
        case Missing => r := Done(Gone);
        case Value(_) => r := Done(StillPresent);
        case Unavailable => r := Done(Unverified);
      }
    }

    method SetSecret(ref: Id, secret: Secret, ghost w0: World, ghost t: Ticket) returns (r: Call<bool>)
      requires Going(w0, t) && MayPut(W(), t, ref, secret)
      modifies store
      ensures Going(w0, t)
      ensures store.secrets == old(store.secrets) || store.secrets == old(store.secrets)[ref := secret]
      ensures store.calm ==> r == Done(true) && store.secrets == old(store.secrets)[ref := secret]
    {
      hide Held;
      PutStep(w0, W(), t, ref, secret, repository.alone);
      r := store.Set(ref, secret);
    }

    method VerifyValue(ref: Id, expected: Secret) returns (r: Call<bool>)
      ensures r == Done(true) ==> ref in store.secrets && store.secrets[ref] == expected
      ensures store.calm ==> r == Done(ref in store.secrets && store.secrets[ref] == expected)
    {
      var read :- store.Get(ref);
      return Done(read == Value(expected));
    }

    // ------------------------------------------------------- the catalog change

    method ApplyAndInspect(operation: Operation, ghost w0: World, ghost t: Ticket) returns (r: Call<ApplyState>)
      requires Going(w0, t) && operation.id == t.op.id && operation.kind == t.op.kind
      requires PhaseOf(t).SecretChanged? && SecretReady(W(), t.op)
      modifies repository
      ensures Kept(w0, t)
      ensures r == Done(Applied) ==> Going(w0, t) && PhaseOf(t).CatalogChanged?
      ensures r == Done(Unchanged) ==> Going(w0, t) && PhaseOf(t).SecretChanged?
      ensures r == Done(Completed) ==> t.op.id !in repository.db.ops && t.op.kind.DeleteConnection?
      ensures t.op.id !in repository.db.ops ==> After(W(), t)
      ensures repository.calm && repository.alone ==>
        r == Done(if !Matches(old(repository.db), t.op) then Unchanged
                  else if t.op.kind.DeleteConnection? then Completed else Applied)
    {
      hide Held, Drift, After;
      var applied, mid := Apply(operation, w0, t);
      if applied.Crashed? {
        return Crashed;
      }
      if applied.value {
        return Done(if operation.kind.DeleteConnection? then Completed else Applied);
      }
      ghost var u := W();
      var current := repository.GetCredentialOperation(operation.id);
      DriftStep(w0, u, repository.db, t, repository.alone);
      if current.Crashed? {
        return Crashed;
      }
      match current.value {
        case Found(op) => return Done(if op.Early() then Unchanged else Applied);
        case Absent => return Done(Completed);
        case Broken => return Done(Unknown);
      }
    }

    method Apply(operation: Operation, ghost w0: World, ghost t: Ticket) returns (r: Call<bool>, ghost mid: Catalog)
      requires Going(w0, t) && operation.id == t.op.id
      requires PhaseOf(t).SecretChanged? && SecretReady(W(), t.op)
      modifies repository
      ensures Kept(w0, t)
      ensures t.op.id in repository.db.ops ==> PhaseOf(t).SecretChanged? || PhaseOf(t).CatalogChanged?
      ensures t.op.id !in repository.db.ops ==> t.op.kind.DeleteConnection? && After(W(), t)
      ensures r == Done(true) ==> if t.op.kind.DeleteConnection? then t.op.id !in repository.db.ops
        else t.op.id in repository.db.ops && PhaseOf(t).CatalogChanged?
      ensures repository.calm && repository.alone ==> r == Done(Matches(old(repository.db), t.op))
      ensures repository.calm && repository.alone && r == Done(false) ==> repository.db == old(repository.db)
    {
      hide Held, Drift, After, SecretReady;
      ghost var w := W();
      r, mid := repository.ApplyCredentialOperation(operation.id);
      DriftStep(w0, w, mid, t, repository.alone);
      HeldShape(w0, w, t, repository.alone);
      HeldShape(w0, w.(db := mid), t, repository.alone);
      SecretReadyFrame(w, mid, t.op);
      if ApplyTx(mid, operation.id).Some? {
        ApplyStep(w0, w.(db := mid), t, repository.alone);
      }
    }
  
    /** Ends an operation whose catalog change is in: a replaced secret is retired first. */
    method FinishApplied(operation: Operation, ghost w0: World, ghost t: Ticket) returns (r: Call<bool>)
      requires Going(w0, t) && operation == t.op.(phase := operation.phase) && !repository.db.ops[t.op.id].Early()
      modifies repository, store
      ensures Kept(w0, t)
      ensures t.op.id in repository.db.ops ==> !repository.db.ops[t.op.id].Early()
      ensures t.op.id !in repository.db.ops ==> After(W(), t)
      ensures r == Done(true) ==> t.op.id !in repository.db.ops
      ensures repository.calm ==> r == Done(true)
    {
      hide Held, Before, After;
      HeldShape(w0, W(), t, repository.alone);
      if !operation.kind.Replace? {
        r := DropOperation(operation, w0, t);
        return;
      }
      var marked :- SetPhase(operation, CleanupPending, w0, t);
      if !marked {
        return Done(false);
      }
      HeldShape(w0, W(), t, repository.alone);
      var verdict :- DeleteAndVerify(operation.oldRef.value, w0, t);
      if !verdict.Gone? {
        return Done(false);
      }
      r := DropOperation(operation, w0, t);
    }

    // ------------------------------------------------------------- compensation

    method CompensateNewCredential(operation: Operation, ghost w0: World, ghost t: Ticket) returns (r: Call<bool>)
      requires Going(w0, t) && operation == t.op.(phase := operation.phase)
      requires repository.db.ops[t.op.id].Early() && t.op.Writes()
      modifies repository, store
      ensures Kept(w0, t) && r != Done(true)
      ensures t.op.id !in repository.db.ops ==> Before(W(), t)
      ensures repository.calm ==> r == Done(false)
    {
      hide Held, Before, After;
      HeldShape(w0, W(), t, repository.alone);
      var verdict :- DeleteAndVerify(operation.newRef.value, w0, t);
      if !verdict.Gone? {
        return Done(false);
      }
      HeldShape(w0, W(), t, repository.alone);
      var dropped :- DropOperation(operation, w0, t);
      return Done(false);
    }

    method CompensateOldCredential(operation: Operation, secret: Secret, ghost w0: World, ghost t: Ticket)
      returns (r: Call<bool>)
      requires Going(w0, t) && operation == t.op.(phase := operation.phase)
      requires repository.db.ops[t.op.id].Early() && !t.op.Writes()
      requires t.op.oldRef.Some? ==> t.op.oldRef.value in t.vault && secret == t.vault[t.op.oldRef.value]
      modifies repository, store
      ensures Kept(w0, t) && r != Done(true)
      ensures t.op.id !in repository.db.ops ==> Before(W(), t)
      ensures repository.calm ==> r == Done(false)
    {
      hide Held, Before, After;
      HeldShape(w0, W(), t, repository.alone);
      if operation.oldRef.None? {
        var dropped :- DropOperation(operation, w0, t);
        return Done(false);
      }
      var stored :- SetSecret(operation.oldRef.value, secret, w0, t);
      var verified :- VerifyValue(operation.oldRef.value, secret);
      if !verified {
        return Done(false);
      }
      HeldShape(w0, W(), t, repository.alone);
      var dropped :- DropOperation(operation, w0, t);
      return Done(false);
    }

    // ----------------------------------------------------------- the operations

    /** Stores the operation row. A refusal leaves everything as it was. */
    method Prepare(operation: Operation, secret: Secret, ghost w0: World) returns (r: Call<bool>, ghost t: Ticket)
      requires Valid() && Startable(W(), operation) && ValidShape(operation)
      requires Local(w0, W(), operation.connection, repository.alone) && w0.db == repository.db
      modifies repository
      ensures Describes(old(W()), t, operation, secret, repository.alone)
      ensures r == Done(true) ==> Going(w0, t) && PhaseOf(t).Prepared? && SecretsOf(W(), t.op.connection) == t.vault
      ensures Kept(w0, t) ||
        (r != Done(true) && Valid() && Busy(old(repository.db), operation.connection) &&
          Drift(old(repository.db), repository.db))
      ensures repository.calm && repository.alone ==> r == Done(CreateTx(old(repository.db), operation).Some?)
      ensures repository.alone ==> repository.db.rows == old(repository.db.rows)
    {
      hide Held, Drift, Opens, Describes, Inv, Local, Startable, CreateTx, Busy, SecretsOf;
      ghost var w := W();
      ghost var mid;
      r, mid := repository.CreateCredentialOperation(operation);
      t := Open(w, mid, operation, secret, repository.alone);
      StartableIssued(w, operation);
      DescribesDrift(w, mid, operation, secret, repository.alone);
      if !Busy(w.db, operation.connection) {
        OpenStep(w0, w, mid, operation, secret, repository.alone);
        if CreateTx(mid, operation).Some? {
          CreateStep(w0, w.(db := mid), t, repository.alone);
          Created(mid, operation);
          SameSecrets(w, W(), operation.connection);
        }
      } else {
        BusyDrift(w, mid, operation.connection);
        BusyRefuses(mid, operation);
      }
    }

    method WriteCredential(operation: Operation, secret: Secret, ghost w0: World)
      returns (r: Call<bool>, ghost t: Ticket)
      requires Valid() && Startable(W(), operation) && ValidShape(operation) && operation.Writes()
      requires Local(w0, W(), operation.connection, repository.alone) && w0.db == repository.db
      modifies repository, store
      ensures Describes(old(W()), t, operation, secret, repository.alone)
      ensures r == Done(true) ==> Kept(w0, t) && After(W(), t)
      ensures Kept(w0, t) ||
        (r != Done(true) && Valid() && Busy(old(repository.db), operation.connection) &&
          Drift(old(repository.db), repository.db) && store.secrets == old(store.secrets))
      ensures repository.calm && repository.alone ==> r == Done(Performable(old(repository.db), operation))
    {
      hide Held, Before, After, Inv, Local, Startable, Drift, Describes;
      PerformableIsStored(W(), operation);
      var prepared;
      prepared, t := Prepare(operation, secret, w0);
      if prepared.Crashed? {
        return Crashed, t;
      }
      if !prepared.value {
        return Done(false), t;
      }
      DescribesOp(old(W()), t, operation, secret, repository.alone);
      HeldShape(w0, W(), t, repository.alone);
      var stored :- SetSecret(operation.newRef.value, secret, w0, t);
      var verified :- VerifyValue(operation.newRef.value, secret);
      if !verified {
        r := CompensateNewCredential(operation, w0, t);
        return;
      }
      r := CompleteWrite(operation, w0, t);
    }

    /** The new secret is stored; now the catalog. */
    method CompleteWrite(operation: Operation, ghost w0: World, ghost t: Ticket) returns (r: Call<bool>)
      requires Going(w0, t) && operation == t.op && operation.Writes() && PhaseOf(t).Prepared?
      requires SecretReady(W(), operation)
      modifies repository, store
      ensures Kept(w0, t)
      ensures r == Done(true) ==> After(W(), t)
      ensures repository.calm && repository.alone ==> r == Done(Matches(old(repository.db), operation))
    {
      hide Held, Before, After;
      var recorded :- SetPhase(operation, SecretChanged, w0, t);
      if !recorded {
        r := CompensateNewCredential(operation, w0, t);
        return;
      }
      var state :- ApplyAndInspect(operation, w0, t);
      match state {
        case Applied => r := FinishApplied(operation, w0, t);
        case Completed => r := Done(true);
        case Unchanged => r := CompensateNewCredential(operation, w0, t);
        case Unknown => r := Done(false);
      }
    }

    method DeleteCredential(operation: Operation, ghost w0: World) returns (r: Call<bool>, ghost t: Ticket)
      requires Valid() && Startable(W(), operation) && ValidShape(operation) && !operation.Writes()
      requires Local(w0, W(), operation.connection, repository.alone) && w0.db == repository.db
      modifies repository, store
      ensures Describes(old(W()), t, operation, [], repository.alone)
      ensures r == Done(true) ==> Kept(w0, t) && After(W(), t)
      ensures Kept(w0, t) ||
        (r != Done(true) && Valid() && Busy(old(repository.db), operation.connection) &&
          Drift(old(repository.db), repository.db) && store.secrets == old(store.secrets))
      ensures repository.calm && repository.alone ==> r == Done(Performable(old(repository.db), operation))
    {
      hide Held, Before, After, Inv, Local, Startable, Drift, Describes;
      PerformableIsStored(W(), operation);
      if Performable(repository.db, operation) && operation.oldRef.Some? { OldSecretIsThere(W(), operation); }
      var prepared;
      prepared, t := Prepare(operation, [], w0);
      if prepared.Crashed? {
        return Crashed, t;
      }
      if !prepared.value {
        return Done(false), t;
      }
      DescribesOp(old(W()), t, operation, [], repository.alone);
      HeldShape(w0, W(), t, repository.alone);
      r := DeletePrepared(operation, w0, t);
    }

    /** The operation row is stored; now the old secret, then the catalog. */
    method DeletePrepared(operation: Operation, ghost w0: World, ghost t: Ticket) returns (r: Call<bool>)
      requires Going(w0, t) && operation == t.op && !operation.Writes()
      requires PhaseOf(t).Prepared? && SecretsOf(W(), t.op.connection) == t.vault
      modifies repository, store
      ensures Kept(w0, t)
      ensures r == Done(true) ==> After(W(), t)
      ensures repository.calm && repository.alone ==>
        r == Done(Matches(old(repository.db), operation) &&
                  (operation.oldRef.Some? ==> operation.oldRef.value in old(store.secrets)))
    {
      hide Held, Before, After;
      var oldSecret: Secret := [];
      if operation.oldRef.Some? {
        var taken :- TakeOldSecret(operation, w0, t);
        if taken.None? {
          return Done(false);
        }
        oldSecret := taken.value;
      }
      r := CompleteDelete(operation, oldSecret, w0, t);
    }

    /** Reads the old secret and removes it. None: the operation stops here, undone if it
        surely can be. */
    method TakeOldSecret(operation: Operation, ghost w0: World, ghost t: Ticket) returns (r: Call<Option<Secret>>)
      requires Going(w0, t) && operation == t.op && !operation.Writes() && operation.oldRef.Some?
      requires PhaseOf(t).Prepared? && SecretsOf(W(), t.op.connection) == t.vault
      modifies repository, store
      ensures Kept(w0, t)
      ensures r.Done? && r.value.Some? ==>
        && repository.db == old(repository.db) && operation.oldRef.value !in store.secrets
        && operation.oldRef.value in t.vault && r.value.value == t.vault[operation.oldRef.value]
      ensures repository.calm ==> r.Done? && (r.value.Some? <==> operation.oldRef.value in old(store.secrets))
    {
      hide Held;
      HeldShape(w0, W(), t, repository.alone);
      var read :- store.Get(operation.oldRef.value);
      OldSecretKnown(w0, W(), t, repository.alone);
      if !read.Value? {
        var dropped :- DropOperation(operation, w0, t);
        return Done(None);
      }
      var verdict :- DeleteAndVerify(operation.oldRef.value, w0, t);
      if verdict.StillPresent? {
        var dropped :- DropOperation(operation, w0, t);
        return Done(None);
      }
      return Done(if verdict.Unverified? then None else Some(read.secret));
    }

    /** The old secret is gone; now the catalog. */
    method CompleteDelete(operation: Operation, oldSecret: Secret, ghost w0: World, ghost t: Ticket)
      returns (r: Call<bool>)
      requires Going(w0, t) && operation == t.op && !operation.Writes() && PhaseOf(t).Prepared?
      requires SecretReady(W(), operation)
      requires t.op.oldRef.Some? ==> t.op.oldRef.value in t.vault && oldSecret == t.vault[t.op.oldRef.value]
      modifies repository, store
      ensures Kept(w0, t)
      ensures r == Done(true) ==> After(W(), t)
      ensures repository.calm && repository.alone ==> r == Done(Matches(old(repository.db), operation))
    {
      hide Held, Before, After;
      var recorded :- SetPhase(operation, SecretChanged, w0, t);
      if !recorded {
        r := CompensateOldCredential(operation, oldSecret, w0, t);
        return;
      }
      var state :- ApplyAndInspect(operation, w0, t);
      match state {
        case Applied => r := FinishApplied(operation, w0, t);
        case Completed => r := Done(true);
        case Unchanged => r := CompensateOldCredential(operation, oldSecret, w0, t);
        case Unknown => r := Done(false);
      }
    }
  
    /** What a saga call leaves behind: a tracked operation, or nothing at all because
        another operation of the connection was pending. Success means completion. */
    ghost predicate Outcome(w0: World, t: Ticket, r: Call<bool>)
      reads this, repository, store
    {
      && Valid()
      && (r == Done(true) ==> Kept(w0, t) && After(W(), t))
      && (|| Kept(w0, t)
          || (Busy(w0.db, t.op.connection) && Drift(w0.db, repository.db) && store.secrets == w0.secrets))
    }

    /** The caller read the connection from this catalog, and id is a new identifier. */
    ghost predicate Genuine(connection: Connection, id: Id)
      reads this, repository, store
    {
      && connection.id in repository.db.issued
      && (connection.id in repository.db.rows ==> connection.revision <= repository.db.rows[connection.id].revision)
      && RefOwned(W(), connection.id, connection.ref)
      && id !in repository.db.ops
    }

    /** Persists a first remembered password. None as a ticket: rejected unread. */
    method Save(connection: Connection, secret: Secret, id: Id, newRef: Id)
      returns (r: Call<bool>, ghost ticket: Option<Ticket>)
      requires Valid() && Genuine(connection, id) && newRef !in owner
      modifies this, repository, store
      ensures ticket.None? <==> connection.ref.Some? || connection.revision == 0
      ensures ticket.None? ==> r == Done(false) && W() == old(W())
      ensures ticket.Some? ==>
        && Outcome(old(W()), ticket.value, r)
        && Describes(old(W()), ticket.value, WriteOperation(id, connection, Kind.Save, newRef), secret,
                     repository.alone)
      ensures ticket.Some? && repository.calm && repository.alone ==>
        r == Done(Performable(old(repository.db), WriteOperation(id, connection, Kind.Save, newRef)))
      ensures r == Done(true) ==> Remembers(W(), connection.id, newRef, secret)
      ensures r == Done(true) && repository.alone ==>
        Became(old(repository.db), repository.db, connection.id, Password, "", Some(newRef))
    {
      if connection.ref.Some? || connection.revision == 0 {
        return Done(false), None;
      }
      ghost var t;
      r, t := WriteWithNewRef(WriteOperation(id, connection, Kind.Save, newRef), secret);
      ticket := Some(t);
    }

    /** Writes a new reference before retiring the old one. */
    method Replace(connection: Connection, secret: Secret, id: Id, newRef: Id)
      returns (r: Call<bool>, ghost ticket: Option<Ticket>)
      requires Valid() && Genuine(connection, id) && newRef !in owner
      modifies this, repository, store
      ensures ticket.None? <==> connection.ref.None? || connection.revision == 0
      ensures ticket.None? ==> r == Done(false) && W() == old(W())
      ensures ticket.Some? ==>
        && Outcome(old(W()), ticket.value, r)
        && Describes(old(W()), ticket.value, WriteOperation(id, connection, Kind.Replace, newRef), secret,
                     repository.alone)
      ensures ticket.Some? && repository.calm && repository.alone ==>
        r == Done(Performable(old(repository.db), WriteOperation(id, connection, Kind.Replace, newRef)))
      ensures r == Done(true) ==> Remembers(W(), connection.id, newRef, secret)
      ensures r == Done(true) && repository.alone ==>
        Became(old(repository.db), repository.db, connection.id, Password, "", Some(newRef))
    {
      if connection.ref.None? || connection.revision == 0 {
        return Done(false), None;
      }
      ghost var t;
      r, t := WriteWithNewRef(WriteOperation(id, connection, Kind.Replace, newRef), secret);
      ticket := Some(t);
    }

    method WriteWithNewRef(operation: Operation, secret: Secret) returns (r: Call<bool>, ghost t: Ticket)
      requires Valid() && ValidShape(operation) && operation.Writes() && operation.phase.Prepared?
      requires Genuine(Connection(operation.connection, operation.expected, operation.oldRef), operation.id)
      requires operation.newRef.value !in owner
      modifies this, repository, store
      ensures Outcome(old(W()), t, r) && Describes(old(W()), t, operation, secret, repository.alone)
      ensures repository.calm && repository.alone ==> r == Done(Performable(old(repository.db), operation))
      ensures r == Done(true) ==> Remembers(W(), operation.connection, operation.newRef.value, secret)
      ensures r == Done(true) && repository.alone ==>
        Became(old(repository.db), repository.db, operation.connection, Password, "", operation.newRef)
    {
      ghost var w0 := W();
      owner := owner[operation.newRef.value := operation.connection];
      NewReference(w0, operation, repository.alone);
      hide Held, Describes, Startable, Local, Inv;
      r, t := WriteCredential(operation, secret, w0);
      DescribesOp(W0(w0, operation), t, operation, secret, repository.alone);
      DescribesNewReference(w0, t, operation, secret, repository.alone);
      if r == Done(true) {
        HeldTicket(w0, W(), t, repository.alone);
        WriteIsDone(w0, W(), t, operation, secret, repository.alone);
      }
    }

    /** Forgets a remembered password and sets the authentication the caller chose. */
    method Remove(connection: Connection, auth: AuthMethod, identity: string, id: Id)
      returns (r: Call<bool>, ghost ticket: Option<Ticket>)
      requires Valid() && Genuine(connection, id)
      modifies this, repository, store
      ensures ticket.None? <==> connection.ref.None? || !ValidTarget(auth, identity) || connection.revision == 0
      ensures ticket.None? ==> r == Done(false) && W() == old(W())
      ensures ticket.Some? ==>
        && Outcome(old(W()), ticket.value, r)
        && Describes(old(W()), ticket.value, RemoveOperation(id, connection, auth, identity), [], repository.alone)
      ensures ticket.Some? && repository.calm && repository.alone ==>
        r == Done(Performable(old(repository.db), RemoveOperation(id, connection, auth, identity)))
      ensures r == Done(true) ==> Forgot(W(), connection.id)
      ensures r == Done(true) && repository.alone ==>
        Became(old(repository.db), repository.db, connection.id, auth, identity, None)
    {
      if connection.ref.None? || !ValidTarget(auth, identity) || connection.revision == 0 {
        return Done(false), None;
      }
      ghost var t;
      r, t := DeleteNow(RemoveOperation(id, connection, auth, identity));
      ticket := Some(t);
    }

    /** Removes a connection and its remembered credential, if any. */
    method DeleteConnection(connection: Connection, id: Id) returns (r: Call<bool>, ghost ticket: Option<Ticket>)
      requires Valid() && Genuine(connection, id)
      modifies this, repository, store
      ensures ticket.None? <==> connection.revision == 0
      ensures ticket.None? ==> r == Done(false) && W() == old(W())
      ensures ticket.Some? ==>
        && Outcome(old(W()), ticket.value, r)
        && Describes(old(W()), ticket.value, DeleteOperation(id, connection), [], repository.alone)
      ensures ticket.Some? && repository.calm && repository.alone ==>
        r == Done(Performable(old(repository.db), DeleteOperation(id, connection)))
      ensures r == Done(true) ==> Forgot(W(), connection.id) && connection.id !in repository.db.rows
    {
      if connection.revision == 0 {
        return Done(false), None;
      }
      ghost var t;
      r, t := DeleteNow(DeleteOperation(id, connection));
      ticket := Some(t);
    }

    method DeleteNow(operation: Operation) returns (r: Call<bool>, ghost t: Ticket)
      requires Valid() && ValidShape(operation) && !operation.Writes() && operation.phase.Prepared?
      requires Genuine(Connection(operation.connection, operation.expected, operation.oldRef), operation.id)
      modifies repository, store
      ensures Outcome(old(W()), t, r) && Describes(old(W()), t, operation, [], repository.alone)
      ensures repository.calm && repository.alone ==> r == Done(Performable(old(repository.db), operation))
      ensures r == Done(true) ==> Forgot(W(), operation.connection)
      ensures r == Done(true) && operation.kind.DeleteConnection? ==> operation.connection !in repository.db.rows
      ensures r == Done(true) && operation.target.Some? && repository.alone ==>
        Became(old(repository.db), repository.db, operation.connection, operation.target.value,
               operation.targetIdentity, None)
    {
      ghost var w0 := W();
      assert Startable(w0, operation);
      LocalReflexive(w0, operation.connection, repository.alone);
      hide Held, Describes, Startable, Local, Inv;
      r, t := DeleteCredential(operation, w0);
      DescribesOp(w0, t, operation, [], repository.alone);
      if Kept(w0, t) { HeldValid(w0, W(), t, repository.alone); }
      if r == Done(true) {
        HeldTicket(w0, W(), t, repository.alone);
        if operation.kind.Remove? {
          RemovalIsDone(w0, W(), t, operation, repository.alone);
        } else {
          DeletionIsDone(w0, W(), t, operation, repository.alone);
        }
      }
    }

    // ----------------------------------------------------------------- recovery

    method RecoverPrepared(operation: Operation, ghost w0: World, ghost t: Ticket) returns (r: Call<Resumption>)
      requires Going(w0, t) && operation == repository.db.ops[t.op.id] && operation.phase.Prepared?
      modifies repository
      ensures Kept(w0, t)
      ensures r == Done(Abandoned) ==>
        !SecretReady(old(W()), operation) && t.op.id !in repository.db.ops && Before(W(), t)
      ensures r == Done(Resumed) ==> Going(w0, t) && PhaseOf(t).SecretChanged?
      ensures r == Done(Resumed) ==> SecretReady(old(W()), operation) && SecretReady(W(), operation)
      ensures repository.calm && repository.alone ==>
        r == Done(if SecretReady(old(W()), operation) then Resumed else Abandoned)
      ensures repository.calm && repository.alone && r == Done(Resumed) ==>
        repository.db.rows == old(repository.db.rows)
    {
      hide Held;
      HeldShape(w0, W(), t, repository.alone);
      if operation.Writes() {
        var read :- store.Get(operation.newRef.value);
        if read.Missing? {
          var dropped :- DropOperation(operation, w0, t);
          return Done(if dropped then Abandoned else Failed);
        }
        if read.Unavailable? {
          return Done(Failed);
        }
      } else if operation.oldRef.Some? {
        var read :- store.Get(operation.oldRef.value);
        if read.Value? {
          var dropped :- DropOperation(operation, w0, t);
          return Done(if dropped then Abandoned else Failed);
        }
        if read.Unavailable? {
          return Done(Failed);
        }
      }
      var recorded :- SetPhase(operation, SecretChanged, w0, t);
      return Done(if recorded then Resumed else Failed);
    }

    method RecoverySecretState(operation: Operation, ghost w0: World, ghost t: Ticket) returns (r: Call<Resumption>)
      requires Going(w0, t) && operation == repository.db.ops[t.op.id] && operation.phase.SecretChanged?
      modifies repository
      ensures Kept(w0, t)
      ensures r == Done(Abandoned) ==>
        !SecretReady(old(W()), operation) && t.op.id !in repository.db.ops && Before(W(), t)
      ensures r == Done(Resumed) ==> repository.db == old(repository.db) && SecretReady(W(), operation)
      ensures repository.calm && repository.alone ==>
        r == Done(if SecretReady(old(W()), operation) then Resumed else Abandoned)
    {
      hide Held;
      HeldShape(w0, W(), t, repository.alone);
      if !operation.Writes() && operation.oldRef.None? {
        return Done(Resumed);
      }
      var reference := if operation.Writes() then operation.newRef.value else operation.oldRef.value;
      var read :- store.Get(reference);
      if read.Unavailable? {
        return Done(Failed);
      }
      if operation.Writes() == read.Value? {
        return Done(Resumed);
      }
      var dropped :- DropOperation(operation, w0, t);
      return Done(if dropped then Abandoned else Failed);
    }

    /** Before an applied operation is finished: the new secret must be readable, or the
        removed one gone. */
    method VerifyAppliedRecoveryState(operation: Operation, ghost w0: World, ghost t: Ticket) returns (r: Call<bool>)
      requires Going(w0, t) && operation == repository.db.ops[t.op.id] && !operation.Early()
      modifies store
      ensures Going(w0, t)
      ensures r == Done(true) ==>
        if operation.Writes() then operation.newRef.Some? && operation.newRef.value in store.secrets
        else operation.oldRef.Some? && operation.oldRef.value !in store.secrets
      ensures repository.calm ==> r == Done(true)
    {
      hide Held;
      HeldShape(w0, W(), t, repository.alone);
      if operation.Writes() {
        var read :- store.Get(operation.newRef.value);
        return Done(read.Value?);
      }
      var verdict :- DeleteAndVerify(operation.oldRef.value, w0, t);
      return Done(verdict.Gone?);
    }

    method RecoverOperation(operation: Operation, ghost w0: World, ghost t: Ticket) returns (r: Call<bool>)
      requires Going(w0, t) && operation == repository.db.ops[t.op.id]
      modifies repository, store
      ensures Kept(w0, t)
      ensures r == Done(true) ==> t.op.id !in repository.db.ops
      ensures r == Done(true) ==> if GoesOn(old(W()), operation) then After(W(), t) else Before(W(), t)
      ensures repository.calm && repository.alone ==> r == Done(Recoverable(old(W()), operation))
    {
      hide Held, After, Before;
      HeldShape(w0, W(), t, repository.alone);
      if operation.Early() {
        r := ResumeOperation(operation, w0, t);
        return;
      }
      var verified :- VerifyAppliedRecoveryState(operation, w0, t);
      if !verified {
        return Done(false);
      }
      r := FinishApplied(operation, w0, t);
    }

    /** Recovery of an operation whose catalog change is not in. */
    method ResumeOperation(operation: Operation, ghost w0: World, ghost t: Ticket) returns (r: Call<bool>)
      requires Going(w0, t) && operation == repository.db.ops[t.op.id] && operation.Early()
      modifies repository, store
      ensures Kept(w0, t)
      ensures r == Done(true) ==> t.op.id !in repository.db.ops
      ensures r == Done(true) ==> if SecretReady(old(W()), operation) then After(W(), t) else Before(W(), t)
      ensures repository.calm && repository.alone ==>
        r == Done(SecretReady(old(W()), operation) ==> Matches(old(repository.db), operation))
    {
      hide Held, After, Before, SecretReady;
      HeldShape(w0, W(), t, repository.alone);
      var op := operation;
      if op.phase.Prepared? {
        var prepared :- RecoverPrepared(op, w0, t);
        if !prepared.Resumed? {
          return Done(prepared.Abandoned?);
        }
        op := op.(phase := SecretChanged);
        PhaseAside(W(), operation, SecretChanged);
        HeldShape(w0, W(), t, repository.alone);
      }
      r := ResumeChanged(op, w0, t);
    }

    method ResumeChanged(op: Operation, ghost w0: World, ghost t: Ticket) returns (r: Call<bool>)
      requires Going(w0, t) && op == repository.db.ops[t.op.id] && op.phase.SecretChanged?
      modifies repository, store
      ensures Kept(w0, t)
      ensures r == Done(true) ==> t.op.id !in repository.db.ops
      ensures r == Done(true) ==> if SecretReady(old(W()), op) then After(W(), t) else Before(W(), t)
      ensures repository.calm && repository.alone ==>
        r == Done(SecretReady(old(W()), op) ==> Matches(old(repository.db), op))
    {
      hide Held, After, Before;
      HeldShape(w0, W(), t, repository.alone);
      var ready :- RecoverySecretState(op, w0, t);
      if !ready.Resumed? {
        return Done(ready.Abandoned?);
      }
      var state :- ApplyAndInspect(op, w0, t);
      match state {
        case Applied => r := FinishApplied(op, w0, t);
        case Completed => r := Done(true);
        case Unchanged => r := Done(false);
        case Unknown => r := Done(false);
      }
    }

    ghost predicate Followed(ticket: Option<Ticket>)
      reads this, repository, store
    {
      ticket.Some? ==> Tracks(W(), ticket.value) && (ticket.value.alone ==> repository.alone)
    }

    /** One listed operation, whether or not it is the one followed. */
    method RecoverListed(operation: Operation, ghost ticket: Option<Ticket>) returns (r: Call<bool>)
      requires Valid() && Followed(ticket) && operation.id in repository.db.ops &&
        repository.db.ops[operation.id] == operation
      modifies repository, store
      ensures Valid() && Followed(ticket)
      ensures repository.db.ops.Keys <= old(repository.db.ops.Keys)
      ensures forall id | id in old(repository.db.ops) && id != operation.id ::
        id in repository.db.ops && repository.db.ops[id] == old(repository.db.ops)[id]
      ensures r == Done(true) ==> operation.id !in repository.db.ops
      ensures r == Done(true) && ticket.Some? ==> Settles(old(W()), ticket.value, W())
      ensures repository.calm && repository.alone ==> r == Done(Recoverable(old(W()), operation))
      ensures repository.calm && repository.alone ==> forall id | id in old(repository.db.ops) && id != operation.id ::
        Recoverable(W(), old(repository.db.ops)[id]) <==> Recoverable(old(W()), old(repository.db.ops)[id])
    {
      hide Inv, Tracks, Local, Recoverable, GoesOn, Before, After;
      ghost var w := W();
      TicketFor(w, operation.id);
      ghost var t :=
        if ticket.Some? && ticket.value.op.id == operation.id then ticket.value else Origin(w, operation.id);
      HeldFrom(w, t, repository.alone);
      assert repository.calm == store.calm;
      r := RecoverOperation(operation, w, t);
      HeldValid(w, W(), t, repository.alone);
      OnlyOwnOperation(w, W(), operation.id, repository.alone);
      if ticket.Some? && ticket.value.op.id != operation.id {
        OtherTicket(w, W(), operation.id, ticket.value, repository.alone);
      }
      if repository.alone {
        forall id | id in w.db.ops && id != operation.id
          ensures Recoverable(W(), w.db.ops[id]) <==> Recoverable(w, w.db.ops[id])
        {
          RecoverabilityIsLocal(w, W(), operation.connection, id);
        }
      }
    }

    /** Resumes every pending operation. Success means that none is left; without faults
        and other writers it succeeds exactly when every operation is recoverable. */
    method Recover(ghost ticket: Option<Ticket>) returns (r: Call<bool>)
      requires Valid() && Followed(ticket)
      modifies repository, store
      ensures Valid() && Followed(ticket)
      ensures repository.db.ops.Keys <= old(repository.db.ops.Keys)
      ensures r == Done(true) ==> repository.db.ops == map[]
      ensures r == Done(true) && ticket.Some? ==> Settles(old(W()), ticket.value, W())
      ensures repository.calm && repository.alone ==>
        r == Done(forall id | id in old(repository.db.ops) :: Recoverable(old(W()), old(repository.db.ops)[id]))
      ensures old(repository.db.ops) == map[] ==>
        && Drift(old(repository.db), repository.db) && store.secrets == old(store.secrets)
        && (repository.alone ==> repository.db == old(repository.db))
    {
      hide Inv, Tracks, Drift, Recoverable, Settles;
      ghost var w0 := W();
      Keyed(w0);
      var listed := repository.ListCredentialOperations();
      DriftFollowed(w0, repository.db, ticket, repository.alone);
      if listed.Crashed? {
        return Crashed;
      }
      if listed.value.None? {
        return Done(false);
      }
      r := RecoverAll(listed.value.value, w0, ticket);
    }

    method RecoverAll(list: seq<Operation>, ghost w0: World, ghost ticket: Option<Ticket>) returns (r: Call<bool>)
      requires Valid() && Followed(ticket) && Lists(list, repository.db.ops)
      requires w0.db.ops == repository.db.ops
      requires ticket.Some? ==> Settles(w0, ticket.value, W())
      requires repository.calm && repository.alone ==> w0 == W()
      modifies repository, store
      ensures Valid() && Followed(ticket)
      ensures repository.db.ops.Keys <= w0.db.ops.Keys
      ensures r == Done(true) ==> repository.db.ops == map[]
      ensures r == Done(true) && ticket.Some? ==> Settles(w0, ticket.value, W())
      ensures repository.calm && repository.alone ==>
        r == Done(forall id | id in w0.db.ops :: Recoverable(w0, w0.db.ops[id]))
      ensures w0.db.ops == map[] ==> repository.db == old(repository.db) && store.secrets == old(store.secrets)
    {
      hide Inv, Tracks, Recoverable, Lists, Followed, Valid, Settles;
      ListedRows(list, w0.db.ops);
      for i := 0 to |list|
        invariant Valid() && Followed(ticket)
        invariant repository.db.ops.Keys <= w0.db.ops.Keys
        invariant ticket.Some? ==> Settles(w0, ticket.value, W())
        invariant forall j | i <= j < |list| ::
          list[j].id in repository.db.ops && repository.db.ops[list[j].id] == list[j]
        invariant forall j | 0 <= j < i :: list[j].id !in repository.db.ops
        invariant repository.calm && repository.alone ==>
          && (forall j | 0 <= j < i :: Recoverable(w0, list[j]))
          && (forall j | i <= j < |list| :: Recoverable(W(), list[j]) <==> Recoverable(w0, list[j]))
        invariant i == 0 ==> repository.db == old(repository.db) && store.secrets == old(store.secrets)
      {
        var operation := list[i];
        ghost var w := W();
        var done :- RecoverListed(operation, ticket);
        if !done {
          return Done(false);
        }
        if ticket.Some? { SettlesTransitive(w0, ticket.value, w, W()); }
      }
      AllListed(list, w0.db.ops);
      return Done(true);
    }

    /** After an operation, however it ended, any number of recoveries are tried, each of
        which can fail or crash anywhere. Once one succeeds, the operation has happened
        exactly once and completely, or not at all. */
    method RecoverUntilDone(attempts: nat, ghost t: Ticket) returns (recovered: bool)
      requires Valid() && Followed(Some(t))
      modifies repository, store
      ensures Valid() && Followed(Some(t))
      ensures recovered ==> repository.db.ops == map[] && (Before(W(), t) || After(W(), t))
    {
      recovered := false;
      for i := 0 to attempts
        invariant Valid() && Followed(Some(t))
        invariant recovered ==> repository.db.ops == map[]
      {
        var r := Recover(Some(t));
        if r == Done(true) {
          recovered := true;
          break;
        }
      }
    }

    /** The whole story: any operation on a connection that has none pending, cut at any call
        or not, then any number of recoveries, each cut or not. Once a recovery reports
        success no operation is left, and this one either never happened or happened exactly
        once and completely, counted from the state it was called in. */
    method Survives(attempt: Attempt, connection: Connection, id: Id, attempts: nat)
      returns (recovered: bool, ghost ticket: Option<Ticket>)
      requires Valid() && Genuine(connection, id) && !Busy(repository.db, connection.id)
      requires attempt.Saving? || attempt.Replacing? ==> attempt.newRef !in owner
      modifies this, repository, store
      ensures Valid()
      ensures ticket.None? ==> W() == old(W())
      ensures ticket.Some? ==>
        Describes(old(W()), ticket.value, attempt.Operation(id, connection), attempt.Given(), repository.alone)
      ensures ticket.Some? && recovered ==>
        repository.db.ops == map[] && (Before(W(), ticket.value) || After(W(), ticket.value))
    {
      hide Before, After, Describes, Inv, Held;
      ghost var w0 := W();
      var r;
      match attempt {
        case Saving(secret, newRef) => r, ticket := Save(connection, secret, id, newRef);
        case Replacing(secret, newRef) => r, ticket := Replace(connection, secret, id, newRef);
        case Removing(auth, identity) => r, ticket := Remove(connection, auth, identity, id);
        case Deleting => r, ticket := DeleteConnection(connection, id);
      }
      recovered := false;
      if ticket.Some? {
        DescribesOp(w0, ticket.value, attempt.Operation(id, connection), attempt.Given(), repository.alone);
        HeldFollows(w0, W(), ticket.value, repository.alone);
      }
      ghost var t :=
        if ticket.Some? then ticket.value
          else Ticket(attempt.Operation(id, connection), None, map[], [], 0, false, false);
      var rejected := Rejects(attempt, connection);
      if !rejected {
        recovered := RecoverUntilDone(attempts, t);
      }
    }

    /** The argument checks that come before anything is read or written. */
    method Rejects(attempt: Attempt, connection: Connection) returns (rejected: bool)
      ensures rejected <==> match attempt
        case Saving(_, _) => connection.ref.Some? || connection.revision == 0
        case Replacing(_, _) => connection.ref.None? || connection.revision == 0
        case Removing(auth, identity) =>
          connection.ref.None? || !ValidTarget(auth, identity) || connection.revision == 0
        case Deleting => connection.revision == 0
    {
      match attempt {
        case Saving(_, _) => rejected := connection.ref.Some? || connection.revision == 0;
        case Replacing(_, _) => rejected := connection.ref.None? || connection.revision == 0;
        case Removing(auth, identity) =>
          rejected := connection.ref.None? || !ValidTarget(auth, identity) || connection.revision == 0;
        case Deleting => rejected := connection.revision == 0;
      }
    }
  }

  datatype Resumption = Failed | Abandoned | Resumed

  /** One of the four operations, with what the caller passes. */
  datatype Attempt =
    | Saving(secret: Secret, newRef: Id)
    | Replacing(secret: Secret, newRef: Id)
    | Removing(auth: AuthMethod, identity: string)
    | Deleting
  {
    function Operation(id: Id, connection: Connection): Operation {
      match this
      case Saving(_, newRef) => WriteOperation(id, connection, Kind.Save, newRef)
      case Replacing(_, newRef) => WriteOperation(id, connection, Kind.Replace, newRef)
      case Removing(auth, identity) => RemoveOperation(id, connection, auth, identity)
      case Deleting => DeleteOperation(id, connection)
    }

    function Given(): Secret {
      if Saving? || Replacing? then secret else []
    }
  }

  function WriteOperation(id: Id, connection: Connection, kind: Kind, newRef: Id): Operation {
    Operation(id, connection.id, connection.revision, kind, connection.ref, Some(newRef), Prepared, Some(Password), "")
  }

  function RemoveOperation(id: Id, connection: Connection, auth: AuthMethod, identity: string): Operation {
    Operation(id, connection.id, connection.revision, Remove, connection.ref, None, Prepared, Some(auth), identity)
  }

  function DeleteOperation(id: Id, connection: Connection): Operation {
    Operation(id, connection.id, connection.revision, DeleteConnection, connection.ref, None, Prepared, None, "")
  }
}
