/**
Concurrent restores of project bundles into one database: the check before the payload is stored,
the check inside the immediate transaction, and the one commit
(src/image23mf/bundles.py:663-685, 902-921, 1241-1265; src/image23mf/storage/repositories.py:109-124).
*/
module ImportRace {
  import opened Wrappers

  type Thread = nat
  type Hash = nat
  type Project = nat

  datatype ImportRow = ImportRow(hash: Hash, project: Project)

  datatype Tables = Tables(projects: seq<Project>, imports: seq<ImportRow>)

  datatype Phase =
    | Verified                                      // the archive is verified
    | Unseen                                        // the first check found no import
    | Stored                                        // the payload is in the blob store
    | Begun                                         // the transaction is open
    | Rechecked                                     // and still sees no import
    | ProjectInserted(project: Project)
    | RowInserted(project: Project)
    | Returned(project: Project, duplicate: bool)
    | Failed

  datatype Restore = Restore(hash: Hash, phase: Phase)

  /** The one open write transaction sees its own copy of the tables. */
  datatype Transaction = Transaction(thread: Thread, tables: Tables)

  datatype State = State(tables: Tables, writer: Option<Transaction>, restores: map<Thread, Restore>)

  datatype Action =
    | Arrive(thread: Thread, hash: Hash)
    | Check(thread: Thread)
    | Store(thread: Thread, ok: bool)
    | Begin(thread: Thread)
    | Recheck(thread: Thread)
    | InsertProject(thread: Thread, project: Project)
    | InsertRow(thread: Thread)
    | Commit(thread: Thread)
    | Raise(thread: Thread)
    | ProcessDeath

  function Find(imports: seq<ImportRow>, hash: Hash): Option<Project> {
    if imports == [] then None
    else if imports[0].hash == hash then Some(imports[0].project)
    else Find(imports[1..], hash)
  }

  predicate InPhase(s: State, t: Thread, phase: Phase) {
    t in s.restores && s.restores[t].phase == phase
  }

  predicate Holds(s: State, t: Thread) {
    s.writer.Some? && s.writer.value.thread == t
  }

  function Enter(s: State, t: Thread, phase: Phase): State
    requires t in s.restores
  {
    s.(restores := s.restores[t := s.restores[t].(phase := phase)])
  }

  function Apply(s: State, a: Action): State {
    match a
    case Arrive(t, hash) =>
      if t in s.restores then s else s.(restores := s.restores[t := Restore(hash, Verified)])
    case Check(t) =>
      if !InPhase(s, t, Verified) then s
      else
        var existing := Find(s.tables.imports, s.restores[t].hash);
        Enter(s, t, if existing.Some? then Returned(existing.value, true) else Unseen)
    case Store(t, ok) =>
      if !InPhase(s, t, Unseen) then s else Enter(s, t, if ok then Stored else Failed)
    case Begin(t) =>
      if !InPhase(s, t, Stored) || s.writer.Some? then s
      else Enter(s, t, Begun).(writer := Some(Transaction(t, s.tables)))
    case Recheck(t) =>
      if !Holds(s, t) || !InPhase(s, t, Begun) then s
      else
        var existing := Find(s.writer.value.tables.imports, s.restores[t].hash);
        if existing.Some? then Enter(s, t, Returned(existing.value, true)).(writer := None) else Enter(s, t, Rechecked)
    case InsertProject(t, project) =>
      // A taken id is never chosen.
      if !Holds(s, t) || !InPhase(s, t, Rechecked) || project in s.writer.value.tables.projects then s
      else
        var tables := s.writer.value.tables;
        Enter(s, t, ProjectInserted(project)).(writer :=
            Some(Transaction(t, tables.(projects := tables.projects + [project]))))
    case InsertRow(t) =>
      if !Holds(s, t) || t !in s.restores || !s.restores[t].phase.ProjectInserted? then s
      else if Find(s.writer.value.tables.imports, s.restores[t].hash).Some? then
        // The primary key would refuse the row and the transaction would be rolled back.
        Enter(s, t, Failed).(writer := None)
      else
        var tables := s.writer.value.tables;
        var project := s.restores[t].phase.project;
        Enter(s, t, RowInserted(project)).(writer :=
            Some(Transaction(t, tables.(imports := tables.imports + [ImportRow(s.restores[t].hash, project)]))))
    case Commit(t) =>
      if !Holds(s, t) || t !in s.restores || !s.restores[t].phase.RowInserted? then s
      else Enter(s, t, Returned(s.restores[t].phase.project, false)).(writer := None, tables := s.writer.value.tables)
    case Raise(t) =>
      if !Holds(s, t) || t !in s.restores then s else Enter(s, t, Failed).(writer := None)
    case ProcessDeath => State(s.tables, None, map[])
  }

  function Run(s: State, actions: seq<Action>): State
    decreases |actions|
  {
    if actions == [] then s else Run(Apply(s, actions[0]), actions[1..])
  }

  // ----- invariants

  predicate InTransaction(phase: Phase) {
    phase.Begun? || phase.Rechecked? || phase.ProjectInserted? || phase.RowInserted?
  }

  predicate Imported(tables: Tables, hash: Hash) {
    Find(tables.imports, hash).Some?
  }

  // What the transaction has done to the tables it began with.
  predicate WorkMatches(tables: Tables, work: Tables, restore: Restore) {
    match restore.phase
    case Begun => work == tables
    case Rechecked => work == tables && !Imported(tables, restore.hash)
    case ProjectInserted(p) =>
      work == tables.(projects := tables.projects + [p]) && p !in tables.projects && !Imported(tables, restore.hash)
    case RowInserted(p) =>
      && work == Tables(tables.projects + [p], tables.imports + [ImportRow(restore.hash, p)])
      && p !in tables.projects && !Imported(tables, restore.hash)
    case _ => false
  }

  ghost predicate TablesOk(tables: Tables) {
    && (forall i, j :: 0 <= i < j < |tables.imports| ==> tables.imports[i].hash != tables.imports[j].hash)
    && (forall i, j :: 0 <= i < j < |tables.projects| ==> tables.projects[i] != tables.projects[j])
    && (forall row :: row in tables.imports ==> row.project in tables.projects)
  }

  // A restore that returned a project found or made the import row of that project.
  predicate ReturnedRow(tables: Tables, restore: Restore) {
    restore.phase.Returned? ==> Find(tables.imports, restore.hash) == Some(restore.phase.project)
  }

  predicate Creator(s: State, t: Thread) {
    t in s.restores && s.restores[t].phase.Returned? && !s.restores[t].phase.duplicate
  }

  ghost predicate Inv(s: State) {
    && TablesOk(s.tables)
    && (s.writer.Some? ==>
          s.writer.value.thread in s.restores
          && WorkMatches(s.tables, s.writer.value.tables, s.restores[s.writer.value.thread]))
    && (forall t :: t in s.restores && InTransaction(s.restores[t].phase) ==> Holds(s, t))
    && (forall t :: t in s.restores ==> ReturnedRow(s.tables, s.restores[t]))
    && (forall t, u :: Creator(s, t) && Creator(s, u) && t != u ==> s.restores[t].hash != s.restores[u].hash)
  }

  lemma {:induction false} FindAppend(imports: seq<ImportRow>, row: ImportRow, hash: Hash)
    ensures Find(imports + [row], hash) ==
            if Find(imports, hash).Some? then Find(imports, hash)
            else if row.hash == hash then Some(row.project) else None
  {
    if imports != [] {
      assert (imports + [row])[1..] == imports[1..] + [row];
      FindAppend(imports[1..], row, hash);
    }
  }

  lemma {:induction false} FindNothing(imports: seq<ImportRow>, hash: Hash)
    ensures Find(imports, hash).None? <==> forall i :: 0 <= i < |imports| ==> imports[i].hash != hash
  {
    if imports != [] {
      FindNothing(imports[1..], hash);
      assert imports == [imports[0]] + imports[1..];
    }
  }

  lemma CommitKeepsInv(s: State, t: Thread)
    requires Inv(s)
    ensures Inv(Apply(s, Commit(t)))
  {
    var n := Apply(s, Commit(t));
    if n != s {
      var row := ImportRow(s.restores[t].hash, s.restores[t].phase.project);
      assert n.tables.imports == s.tables.imports + [row];
      FindNothing(s.tables.imports, row.hash);
      forall u | u in n.restores ensures ReturnedRow(n.tables, n.restores[u]) {
        FindAppend(s.tables.imports, row, n.restores[u].hash);
      }
      forall u | Creator(s, u) ensures s.restores[u].hash != row.hash {
        assert ReturnedRow(s.tables, s.restores[u]);
      }
    }
  }

  lemma TransactionStepKeepsInv(s: State, a: Action)
    requires Inv(s) && (a.Begin? || a.Recheck? || a.Raise?)
    ensures Inv(Apply(s, a))
  {
  }

  lemma OutsideStepKeepsInv(s: State, a: Action)
    requires Inv(s) && !a.Commit? && !a.Begin? && !a.Recheck? && !a.Raise? && !a.InsertProject? && !a.InsertRow?
    ensures Inv(Apply(s, a))
  {
  }

  lemma InsertKeepsInv(s: State, a: Action)
    requires Inv(s) && (a.InsertProject? || a.InsertRow?)
    ensures Inv(Apply(s, a))
  {
  }

  /** Every step of every restore keeps the invariants. */
  lemma StepKeepsInv(s: State, a: Action)
    requires Inv(s)
    ensures Inv(Apply(s, a))
  {
    match a
    case Commit(t) => CommitKeepsInv(s, t);
    case Recheck(_) => TransactionStepKeepsInv(s, a);
    case Begin(_) => TransactionStepKeepsInv(s, a);
    case Raise(_) => TransactionStepKeepsInv(s, a);
    case InsertProject(_, _) => InsertKeepsInv(s, a);
    case InsertRow(_) => InsertKeepsInv(s, a);
    case _ => OutsideStepKeepsInv(s, a);
  }

  /** How far the tables have come: rows are only appended, and every new project has its one import row. */
  ghost predicate GrewTogether(before: Tables, after: Tables) {
    && before.imports <= after.imports && before.projects <= after.projects
    && |after.projects| - |before.projects| == |after.imports| - |before.imports|
  }

  lemma StepGrows(s: State, a: Action)
    requires Inv(s)
    ensures GrewTogether(s.tables, Apply(s, a).tables)
  {
  }

  /** Whoever created a project since then found none for its bundle then. */
  ghost predicate CreatedSince(before: Tables, s: State) {
    forall t :: Creator(s, t) ==> !Imported(before, s.restores[t].hash)
  }

  lemma StepCreates(before: Tables, s: State, a: Action)
    requires Inv(s) && GrewTogether(before, s.tables) && CreatedSince(before, s)
    ensures CreatedSince(before, Apply(s, a))
  {
    forall t | Creator(Apply(s, a), t) && !Creator(s, t) ensures !Imported(before, s.restores[t].hash) {
      FindNothing(s.tables.imports, s.restores[t].hash);
      FindNothing(before.imports, s.restores[t].hash);
    }
  }

  lemma {:induction false} RunKeepsInv(before: Tables, s: State, actions: seq<Action>)
    requires Inv(s) && GrewTogether(before, s.tables) && CreatedSince(before, s)
    ensures Inv(Run(s, actions))
    ensures GrewTogether(before, Run(s, actions).tables) && CreatedSince(before, Run(s, actions))
    decreases |actions|
  {
    if actions != [] {
      StepKeepsInv(s, actions[0]);
      StepGrows(s, actions[0]);
      StepCreates(before, s, actions[0]);
      RunKeepsInv(before, Apply(s, actions[0]), actions[1..]);
    }
  }

  function Start(tables: Tables): State {
    State(tables, None, map[])
  }

  /** Restores of one bundle agree on the project, and at most one of them created it, in every interleaving. */
  lemma OneProjectPerBundle(tables: Tables, actions: seq<Action>, t: Thread, u: Thread)
    requires TablesOk(tables)
    requires var s := Run(Start(tables), actions);
             && t in s.restores && u in s.restores && t != u
             && s.restores[t].phase.Returned? && s.restores[u].phase.Returned?
             && s.restores[t].hash == s.restores[u].hash
    ensures var s := Run(Start(tables), actions);
            && s.restores[t].phase.project == s.restores[u].phase.project
            && (s.restores[t].phase.duplicate || s.restores[u].phase.duplicate)
            && (Imported(tables, s.restores[t].hash) ==> s.restores[t].phase.duplicate)
  {
    RunKeepsInv(tables, Start(tables), actions);
  }

  /** Thanks to the check inside the transaction the primary key never refuses a row. */
  lemma RowIsNeverRefused(s: State, t: Thread)
    requires Inv(s) && Holds(s, t) && s.restores[t].phase.ProjectInserted?
    ensures InPhase(Apply(s, InsertRow(t)), t, RowInserted(s.restores[t].phase.project))
  {
  }

  // ----- single restores

  ghost predicate Names(tables: Tables, hash: Hash, project: Project) {
    exists row :: row in tables.imports && row.hash == hash && row.project == project
  }

  lemma {:induction false} FoundIsNamed(imports: seq<ImportRow>, hash: Hash)
    ensures Find(imports, hash).Some? ==>
              exists row :: row in imports && row.hash == hash && row.project == Find(imports, hash).value
  {
    if imports != [] && imports[0].hash != hash { FoundIsNamed(imports[1..], hash); }
  }

  /** Nothing but a commit writes the tables, and no restore is then left holding what it wrote. */
  lemma OnlyCommitsWrite(s: State, a: Action)
    ensures !a.Commit? ==> Apply(s, a).tables == s.tables
    ensures a.Raise? || a.Commit? || a.ProcessDeath? ==>
              Apply(s, a) == s || Apply(s, a).writer.None?
  {
  }

  /** A payload that cannot be stored, or an exception inside the transaction, ends the restore and leaves no trace. */
  lemma FailuresLeaveNoTrace(s: State, t: Thread)
    requires t in s.restores
    ensures InPhase(s, t, Unseen) ==>
              Apply(s, Store(t, false)).tables == s.tables && InPhase(Apply(s, Store(t, false)), t, Failed)
    ensures Holds(s, t) ==>
              && Apply(s, Raise(t)).tables == s.tables && Apply(s, Raise(t)).writer.None?
              && InPhase(Apply(s, Raise(t)), t, Failed)
  {
  }

  /** A bundle that was imported before is told by the first check, whatever the restore would have brought. */
  lemma KnownBundleReturnsItsProject(s: State, t: Thread, hash: Hash)
    requires t !in s.restores && exists row :: row in s.tables.imports && row.hash == hash
    ensures var r := Apply(Apply(s, Arrive(t, hash)), Check(t));
            && r.tables == s.tables && t in r.restores && r.restores[t].phase.Returned?
            && r.restores[t].phase.duplicate && Names(s.tables, hash, r.restores[t].phase.project)
  {
    FindNothing(s.tables.imports, hash);
    FoundIsNamed(s.tables.imports, hash);
  }

  /** One that was imported between the two checks is told by the second, and the transaction ends empty. */
  lemma LateBundleReturnsItsProject(s: State, t: Thread)
    requires Inv(s) && Holds(s, t) && InPhase(s, t, Begun)
    requires exists row :: row in s.tables.imports && row.hash == s.restores[t].hash
    ensures var r := Apply(s, Recheck(t));
            && r.tables == s.tables && r.writer.None? && t in r.restores && r.restores[t].phase.Returned?
            && r.restores[t].phase.duplicate && Names(s.tables, s.restores[t].hash, r.restores[t].phase.project)
  {
    FindNothing(s.tables.imports, s.restores[t].hash);
    FoundIsNamed(s.tables.imports, s.restores[t].hash);
  }

  // From the stored payload to the rows in the transaction.
  lemma NewBundleFillsTheTransaction(s: State, t: Thread, project: Project)
    requires s.writer.None? && InPhase(s, t, Stored) && project !in s.tables.projects
    requires Find(s.tables.imports, s.restores[t].hash).None?
    ensures var r := Apply(Apply(Apply(Apply(s, Begin(t)), Recheck(t)), InsertProject(t, project)), InsertRow(t));
            && r.tables == s.tables && InPhase(r, t, RowInserted(project))
            && r.writer == Some(Transaction(t, Tables(s.tables.projects + [project],
                                                     s.tables.imports + [ImportRow(s.restores[t].hash, project)])))
  {
    var begun := Apply(s, Begin(t));
    var rechecked := Apply(begun, Recheck(t));
    assert InPhase(rechecked, t, Rechecked) && rechecked.writer == Some(Transaction(t, s.tables));
    var inserted := Apply(rechecked, InsertProject(t, project));
    assert InPhase(inserted, t, ProjectInserted(project)) && inserted.tables == s.tables;
  }

  /** A new bundle, undisturbed: its project and its import row are added, and nothing else. */
  lemma NewBundleIsImported(s: State, t: Thread, hash: Hash, project: Project)
    requires s.writer.None? && t !in s.restores && project !in s.tables.projects
    requires forall row :: row in s.tables.imports ==> row.hash != hash
    ensures var stored := Apply(Apply(Apply(s, Arrive(t, hash)), Check(t)), Store(t, true));
            var rechecked := Apply(Apply(stored, Begin(t)), Recheck(t));
            var r := Apply(Apply(Apply(rechecked, InsertProject(t, project)), InsertRow(t)), Commit(t));
            && r.tables == Tables(s.tables.projects + [project], s.tables.imports + [ImportRow(hash, project)])
            && r.writer.None? && InPhase(r, t, Returned(project, false))
  {
    FindNothing(s.tables.imports, hash);
    var checked := Apply(Apply(s, Arrive(t, hash)), Check(t));
    assert InPhase(checked, t, Unseen);
    NewBundleFillsTheTransaction(Apply(checked, Store(t, true)), t, project);
  }
}
