/** Bulk registration that survives being interrupted anywhere and resumed any number of times. */
module CohortRegistration {
  import opened Prelude

  type Id = nat

  datatype Status = Pending | Registered | Failed

  /** One tracked target of a cohort. */
  datatype Row = Row(
    team: string, project: string, teamId: Option<Id>, projectId: Option<Id>, scanId: Option<Id>,
    status: Status, attempts: nat)

  datatype Target = Target(team: string, project: string)

  // ---------------------------------------------------------------- the table

  predicate Tracked(rows: seq<Row>, t: Target) {
    exists r | r in rows :: r.team == t.team && r.project == t.project
  }

  /** INSERT .. ON CONFLICT DO NOTHING for each target in turn. */
  function Seed(rows: seq<Row>, targets: seq<Target>): seq<Row> {
    if targets == [] then rows
    else
      var before := Seed(rows, targets[..|targets| - 1]);
      var t := targets[|targets| - 1];
      if Tracked(before, t) then before else before + [Row(t.team, t.project, None, None, None, Pending, 0)]
  }

  function Coalesce(given: Option<Id>, kept: Option<Id>): Option<Id> {
    if given.Some? then given else kept
  }

  function Progress(r: Row, team: Option<Id>, project: Option<Id>, scan: Option<Id>): Row {
    r.(teamId := Coalesce(team, r.teamId), projectId := Coalesce(project, r.projectId),
       scanId := Coalesce(scan, r.scanId), status := if scan.Some? then Registered else r.status)
  }

  function Failure(r: Row): Row {
    r.(status := Failed, attempts := r.attempts + 1)
  }

  predicate Due(r: Row, retryFailed: bool) {
    r.status == Pending || (retryFailed && r.status == Failed)
  }

  /** The rows a pass will work on, in id order. */
  function Selected(rows: seq<Row>, retryFailed: bool): (ids: seq<nat>)
    ensures forall i | 0 <= i < |rows| && rows[i].status == Pending :: i in ids
    ensures forall i | 0 <= i < |rows| && retryFailed && rows[i].status == Failed :: i in ids
    ensures forall i | i in ids ::
      i < |rows| && (rows[i].status == Pending || (retryFailed && rows[i].status == Failed))
    ensures forall j, k | 0 <= j < k < |ids| :: ids[j] < ids[k]
  {
    if rows == [] then []
    else
      var front, last := rows[..|rows| - 1], |rows| - 1;
      var found := Selected(front, retryFailed);
      assert forall k | 0 <= k < |found| :: found[k] in found;
      found + if Due(rows[last], retryFailed) then [last] else []
  }

  lemma {:induction false} SelectedOneMore(rows: seq<Row>, r: Row, retryFailed: bool)
    ensures Selected(rows + [r], retryFailed)
         == Selected(rows, retryFailed) + if Due(r, retryFailed) then [|rows|] else []
  {
    assert (rows + [r])[..|rows|] == rows;
  }

  class Table {
    var rows: seq<Row>

    constructor ()
      ensures rows == []
    {
      rows := [];
    }

    method SeedTargets(targets: seq<Target>) returns (inserted: nat)
      modifies this
      ensures rows == Seed(old(rows), targets) && inserted == |rows| - |old(rows)|
    {
      inserted := 0;
      for i := 0 to |targets|
        invariant rows == Seed(old(rows), targets[..i]) && inserted == |rows| - |old(rows)|
      {
        assert targets[..i + 1][..i] == targets[..i];
        var conflict := false;
        for j := 0 to |rows|
          invariant conflict <==>
            exists r | r in rows[..j] :: r.team == targets[i].team && r.project == targets[i].project
        {
          if rows[j].team == targets[i].team && rows[j].project == targets[i].project {
            conflict := true;
          }
          assert rows[..j + 1] == rows[..j] + [rows[j]];
        }
        assert rows[..|rows|] == rows;
        if !conflict {
          rows := rows + [Row(targets[i].team, targets[i].project, None, None, None, Pending, 0)];
          inserted := inserted + 1;
        }
      }
      assert targets[..|targets|] == targets;
    }

    method TargetsToRegister(includeFailed: bool) returns (ids: seq<nat>)
      ensures ids == Selected(rows, includeFailed)
    {
      ids := [];
      for i := 0 to |rows|
        invariant ids == Selected(rows[..i], includeFailed)
      {
        SelectedOneMore(rows[..i], rows[i], includeFailed);
        assert rows[..i + 1] == rows[..i] + [rows[i]];
        if rows[i].status == Pending || (includeFailed && rows[i].status == Failed) {
          ids := ids + [i];
        }
      }
      assert rows[..|rows|] == rows;
    }

    method MarkProgress(i: nat, team: Option<Id>, project: Option<Id>, scan: Option<Id>)
      requires i < |rows|
      modifies this
      ensures rows == old(rows)[i := Progress(old(rows)[i], team, project, scan)]
    {
      var r := rows[i];
      if team.Some? { r := r.(teamId := team); }
      if project.Some? { r := r.(projectId := project); }
      if scan.Some? { r := r.(scanId := scan, status := Registered); }
      rows := rows[i := r];
    }

    method MarkFailed(i: nat)
      requires i < |rows|
      modifies this
      ensures rows == old(rows)[i := Failure(old(rows)[i])]
    {
      rows := rows[i := rows[i].(status := Failed, attempts := rows[i].attempts + 1)];
    }
  }

  // ---------------------------------------------------------------- the server and one pass

  /** Slugs are unique: a team slug names one team, a project slug one project of its team. `scans` gives each scan its
      project, and `keyed` are the projects that hold a credential. */
  datatype Server = Server(
    teams: map<string, Id>, projects: map<(Id, string), Id>, scans: map<Id, Id>, keyed: set<Id>, next: Id)

  /** The statement the pass will execute next for the row it is on. */
  datatype Stage =
    | EnsureTeam | MarkTeam(team: Id)
    | EnsureProject(team: Id) | MarkProject(project: Id)
    | SendCredential(project: Id) | TriggerScan(project: Id) | MarkScan(scan: Id)
    | Report | MarkFailure

  /** A queued row with the snapshot the SELECT returned. */
  datatype Work = Work(id: nat, snapshot: Row)

  datatype Process = Process(queue: seq<Work>, stage: Stage, credential: bool)

  datatype System = System(rows: seq<Row>, server: Server, process: Option<Process>)

  /** How a request went: answered, done but the answer lost, or not done. */
  datatype Reply = Answered | Lost | Rejected

  datatype Event =
    | SeedRows(targets: seq<Target>)
    | StartPass(retryFailed: bool, limit: Option<nat>, credential: bool)
    | Statement(reply: Reply)
    | Interrupt
    | OtherTeam(slug: string)
    | OtherProject(team: Id, slug: string)

  function AddTeam(s: Server, slug: string): Server {
    if slug in s.teams then s else s.(teams := s.teams[slug := s.next], next := s.next + 1)
  }

  function AddProject(s: Server, team: Id, slug: string): Server {
    if (team, slug) in s.projects then s else s.(projects := s.projects[(team, slug) := s.next], next := s.next + 1)
  }

  function AddKey(s: Server, project: Id): Server {
    s.(keyed := s.keyed + {project})
  }

  function AddScan(s: Server, project: Id): Server {
    s.(scans := s.scans[s.next := project], next := s.next + 1)
  }

  function Queue(rows: seq<Row>, ids: seq<nat>): (q: seq<Work>)
    requires forall k | 0 <= k < |ids| :: ids[k] < |rows|
    ensures |q| == |ids| && forall k | 0 <= k < |q| :: q[k].id == ids[k] && q[k].snapshot == rows[ids[k]]
  {
    if ids == [] then [] else [Work(ids[0], rows[ids[0]])] + Queue(rows, ids[1..])
  }

  /** The first `limit` of them; zero is no limit. */
  function Kept(rows: seq<Row>, retryFailed: bool, limit: Option<nat>): (kept: seq<nat>)
    ensures var all := Selected(rows, retryFailed);
      if limit == None || limit == Some(0) then kept == all
      else kept <= all && |kept| == Min(limit.value, |all|)
    ensures forall k | 0 <= k < |kept| :: kept[k] < |rows| && Due(rows[kept[k]], retryFailed)
    ensures forall j, k | 0 <= j < k < |kept| :: kept[j] < kept[k]
  {
    var ids := Selected(rows, retryFailed);
    assert forall k | 0 <= k < |ids| :: ids[k] in ids;
    if limit.Some? && 0 < limit.value < |ids| then ids[..limit.value] else ids
  }

  function Begin(rows: seq<Row>, retryFailed: bool, limit: Option<nat>, credential: bool): Option<Process> {
    var kept := Kept(rows, retryFailed, limit);
    if kept == [] then None else Some(Process(Queue(rows, kept), EnsureTeam, credential))
  }

  /** Each item of a new pass is a due row as it stands. */
  lemma {:induction false} BeginsWithDueRows(
    rows: seq<Row>, retryFailed: bool, limit: Option<nat>, credential: bool, w: Work)
    requires var p := Begin(rows, retryFailed, limit, credential); p.Some? && w in p.value.queue
    ensures w.id < |rows| && w.snapshot == rows[w.id] && Due(w.snapshot, retryFailed)
  {
    var kept := Kept(rows, retryFailed, limit);
    var k :| 0 <= k < |kept| && Queue(rows, kept)[k] == w;
  }

  function Finish(p: Process): Option<Process>
    requires p.queue != []
  {
    if |p.queue| == 1 then None else Some(p.(queue := p.queue[1..], stage := EnsureTeam))
  }

  function At(p: Process, stage: Stage): Option<Process> {
    Some(p.(stage := stage))
  }

  /** One statement of the loop body in `cmd_register`. */
  function Execute(s: System, p: Process, reply: Reply): System
    requires p.queue != [] && p.queue[0].id < |s.rows|
  {
    var i, snap := p.queue[0].id, p.queue[0].snapshot;
    match p.stage
    case EnsureTeam =>
      if snap.teamId.Some? then s.(process := At(p, MarkTeam(snap.teamId.value)))
      else if reply == Rejected then s.(process := At(p, MarkFailure))
      else
        var server := AddTeam(s.server, snap.team);
        s.(server := server, process := At(p, if reply == Lost then MarkFailure else MarkTeam(server.teams[snap.team])))
    case MarkTeam(t) =>
      s.(rows := s.rows[i := Progress(s.rows[i], Some(t), None, None)], process := At(p, EnsureProject(t)))
    case EnsureProject(t) =>
      if snap.projectId.Some? then s.(process := At(p, MarkProject(snap.projectId.value)))
      else if reply == Rejected then s.(process := At(p, MarkFailure))
      else
        var server := AddProject(s.server, t, snap.project);
        s.(server := server,
           process := At(p, if reply == Lost then MarkFailure else MarkProject(server.projects[(t, snap.project)])))
    case MarkProject(q) =>
      s.(rows := s.rows[i := Progress(s.rows[i], None, Some(q), None)],
         process := At(p, if p.credential then SendCredential(q) else TriggerScan(q)))
    case SendCredential(q) =>
      if reply == Rejected then s.(process := At(p, MarkFailure))
      else s.(server := AddKey(s.server, q), process := At(p, if reply == Lost then MarkFailure else TriggerScan(q)))
    case TriggerScan(q) =>
      if reply == Rejected then s.(process := At(p, MarkFailure))
      else
        s.(server := AddScan(s.server, q),
           process := At(p, if reply == Lost then MarkFailure else MarkScan(s.server.next)))
    case MarkScan(x) => s.(rows := s.rows[i := Progress(s.rows[i], None, None, Some(x))], process := At(p, Report))
    case Report => s.(process := if reply == Answered then Finish(p) else At(p, MarkFailure))
    case MarkFailure => s.(rows := s.rows[i := Failure(s.rows[i])], process := Finish(p))
  }

  function Next(s: System, e: Event): System {
    match e
    case SeedRows(targets) => if s.process.Some? then s else s.(rows := Seed(s.rows, targets))
    case StartPass(retryFailed, limit, credential) =>
      if s.process.Some? then s else s.(process := Begin(s.rows, retryFailed, limit, credential))
    case Statement(reply) =>
      if s.process.None? || s.process.value.queue == [] || s.process.value.queue[0].id >= |s.rows| then s
      else Execute(s, s.process.value, reply)
    case Interrupt => s.(process := None)
    case OtherTeam(slug) => s.(server := AddTeam(s.server, slug))
    case OtherProject(team, slug) => s.(server := AddProject(s.server, team, slug))
  }

  const EMPTY := System([], Server(map[], map[], map[], {}, 0), None)

  function Run(s: System, events: seq<Event>): System {
    if events == [] then s else Next(Run(s, events[..|events| - 1]), events[|events| - 1])
  }

  // ---------------------------------------------------------------- what every run keeps

  /** Recorded ids are the server's, filled in the order team, project, scan; a registered row's scan was
      triggered on its own project. */
  ghost predicate RowOk(r: Row, s: Server) {
    && (r.teamId.Some? ==> r.team in s.teams && s.teams[r.team] == r.teamId.value)
    && (r.projectId.Some? ==>
          r.teamId.Some? && (r.teamId.value, r.project) in s.projects
          && s.projects[(r.teamId.value, r.project)] == r.projectId.value)
    && (r.scanId.Some? ==>
          r.projectId.Some? && r.scanId.value in s.scans && s.scans[r.scanId.value] == r.projectId.value)
    && (r.status == Registered ==> r.scanId.Some?)
  }

  /** An id once recorded stays recorded; team and project ids never change. */
  ghost predicate RowGrows(a: Row, b: Row) {
    && a.team == b.team && a.project == b.project && a.attempts <= b.attempts
    && (a.teamId.Some? ==> b.teamId == a.teamId)
    && (a.projectId.Some? ==> b.projectId == a.projectId)
    && (a.scanId.Some? ==> b.scanId.Some?)
  }

  ghost predicate ServerGrows(a: Server, b: Server) {
    && (forall t | t in a.teams :: t in b.teams && b.teams[t] == a.teams[t])
    && (forall q | q in a.projects :: q in b.projects && b.projects[q] == a.projects[q])
    && (forall x | x in a.scans :: x in b.scans && b.scans[x] == a.scans[x])
    && a.keyed <= b.keyed
  }

  /** The snapshot is an earlier state of the same row. */
  ghost predicate WorkOk(w: Work, rows: seq<Row>) {
    w.id < |rows| && RowGrows(w.snapshot, rows[w.id])
  }

  ghost predicate StageOk(stage: Stage, r: Row, s: Server) {
    match stage
    case EnsureTeam => true
    case MarkTeam(t) => r.team in s.teams && s.teams[r.team] == t
    case EnsureProject(t) => r.teamId == Some(t)
    case MarkProject(q) =>
      r.teamId.Some? && (r.teamId.value, r.project) in s.projects && s.projects[(r.teamId.value, r.project)] == q
    case SendCredential(q) => r.projectId == Some(q)
    case TriggerScan(q) => r.projectId == Some(q)
    case MarkScan(x) => r.projectId.Some? && x in s.scans && s.scans[x] == r.projectId.value
    case Report => true
    case MarkFailure => true
  }

  ghost predicate ProcessOk(p: Process, rows: seq<Row>, s: Server) {
    && p.queue != [] && (forall w | w in p.queue :: WorkOk(w, rows))
    && p.queue[0].id < |rows| && StageOk(p.stage, rows[p.queue[0].id], s)
  }

  /** Ids are given out once: no two teams, and no two projects, share one. */
  ghost predicate ServerOk(s: Server) {
    && (forall x | x in s.scans :: x < s.next)
    && (forall t | t in s.teams :: s.teams[t] < s.next)
    && (forall q | q in s.projects :: s.projects[q] < s.next)
    && (forall t, u | t in s.teams && u in s.teams && s.teams[t] == s.teams[u] :: t == u)
    && (forall q, r | q in s.projects && r in s.projects && s.projects[q] == s.projects[r] :: q == r)
  }

  ghost predicate Ok(s: System) {
    && ServerOk(s.server)
    && (forall r | r in s.rows :: RowOk(r, s.server))
    && (s.process.Some? ==> ProcessOk(s.process.value, s.rows, s.server))
  }

  ghost predicate RowsGrow(a: seq<Row>, b: seq<Row>) {
    |a| <= |b| && forall i | 0 <= i < |a| :: RowGrows(a[i], b[i])
  }

  ghost predicate Grows(a: System, b: System) {
    RowsGrow(a.rows, b.rows) && ServerGrows(a.server, b.server)
  }

  lemma {:induction false} RowStaysOk(r: Row, a: Server, b: Server)
    requires RowOk(r, a) && ServerGrows(a, b)
    ensures RowOk(r, b)
  {
  }

  lemma {:induction false} StageStaysOk(stage: Stage, r: Row, r': Row, a: Server, b: Server)
    requires StageOk(stage, r, a) && ServerGrows(a, b) && r' == r
    ensures StageOk(stage, r', b)
  {
  }

  /** A step that only moves the server forward, and perhaps the process, keeps everything. */
  lemma {:induction false} ServerMoves(s: System, server: Server, p: Option<Process>)
    requires Ok(s) && ServerOk(server) && ServerGrows(s.server, server)
    requires p.Some? ==> ProcessOk(p.value, s.rows, server)
    ensures Ok(System(s.rows, server, p)) && Grows(s, System(s.rows, server, p))
  {
    forall r | r in s.rows ensures RowOk(r, server) { RowStaysOk(r, s.server, server); }
  }

  /** A step that rewrites the current row, and moves the process. */
  lemma {:induction false} RowMoves(s: System, i: nat, r: Row, p: Option<Process>)
    requires Ok(s) && i < |s.rows| && RowGrows(s.rows[i], r) && RowOk(r, s.server)
    requires s.process.Some? && (p.Some? ==> p.value.queue != [] && p.value.queue[0].id < |s.rows|)
    requires p.Some? ==> forall w | w in p.value.queue :: w in s.process.value.queue
    requires p.Some? ==> StageOk(p.value.stage, s.rows[i := r][p.value.queue[0].id], s.server)
    ensures Ok(System(s.rows[i := r], s.server, p)) && Grows(s, System(s.rows[i := r], s.server, p))
  {
    var rows := s.rows[i := r];
    forall x | x in rows ensures RowOk(x, s.server) {
      assert x == r || x in s.rows;
    }
    if p.Some? {
      forall w | w in p.value.queue ensures WorkOk(w, rows) {
        assert WorkOk(w, s.rows);
      }
    }
  }

  lemma {:induction false} ProcessMoves(s: System, p: Process, stage: Stage, server: Server)
    requires ProcessOk(p, s.rows, s.server)
    requires StageOk(stage, s.rows[p.queue[0].id], server)
    ensures ProcessOk(p.(stage := stage), s.rows, server)
  {
  }

  lemma {:induction false} NextRowIsOk(p: Process, rows: seq<Row>, s: Server)
    requires ProcessOk(p, rows, s)
    ensures Finish(p).Some? ==> ProcessOk(Finish(p).value, rows, s)
  {
    if |p.queue| > 1 {
      forall w | w in p.queue[1..] ensures WorkOk(w, rows) { assert w in p.queue; }
      assert p.queue[1] in p.queue;
    }
  }

  lemma {:induction false} AddTeamGrows(s: Server, slug: string)
    requires ServerOk(s)
    ensures ServerOk(AddTeam(s, slug)) && ServerGrows(s, AddTeam(s, slug)) && slug in AddTeam(s, slug).teams
  {
  }

  lemma {:induction false} AddProjectGrows(s: Server, team: Id, slug: string)
    requires ServerOk(s)
    ensures ServerOk(AddProject(s, team, slug)) && ServerGrows(s, AddProject(s, team, slug))
    ensures (team, slug) in AddProject(s, team, slug).projects
  {
  }

  lemma {:induction false} AddScanGrows(s: Server, project: Id)
    requires ServerOk(s)
    ensures ServerOk(AddScan(s, project)) && ServerGrows(s, AddScan(s, project))
  {
  }

  lemma {:induction false} TeamRequestIsOk(s: System, p: Process, reply: Reply)
    requires Ok(s) && s.process == Some(p) && p.stage.EnsureTeam?
    ensures Ok(Execute(s, p, reply)) && Grows(s, Execute(s, p, reply))
  {
    var t, w := Execute(s, p, reply), p.queue[0];
    assert w in p.queue && WorkOk(w, s.rows) && RowOk(s.rows[w.id], s.server);
    AddTeamGrows(s.server, w.snapshot.team);
    ProcessMoves(s, p, t.process.value.stage, t.server);
    ServerMoves(s, t.server, t.process);
  }

  lemma {:induction false} ProjectRequestIsOk(s: System, p: Process, reply: Reply)
    requires Ok(s) && s.process == Some(p) && p.stage.EnsureProject?
    ensures Ok(Execute(s, p, reply)) && Grows(s, Execute(s, p, reply))
  {
    var t, w := Execute(s, p, reply), p.queue[0];
    assert w in p.queue && WorkOk(w, s.rows) && RowOk(s.rows[w.id], s.server);
    AddProjectGrows(s.server, p.stage.team, w.snapshot.project);
    ProcessMoves(s, p, t.process.value.stage, t.server);
    ServerMoves(s, t.server, t.process);
  }

  lemma {:induction false} ScanRequestIsOk(s: System, p: Process, reply: Reply)
    requires Ok(s) && s.process == Some(p) && (p.stage.SendCredential? || p.stage.TriggerScan?)
    ensures Ok(Execute(s, p, reply)) && Grows(s, Execute(s, p, reply))
  {
    var t := Execute(s, p, reply);
    AddScanGrows(s.server, p.stage.project);
    assert ServerGrows(s.server, AddKey(s.server, p.stage.project));
    ProcessMoves(s, p, t.process.value.stage, t.server);
    ServerMoves(s, t.server, t.process);
  }

  lemma {:induction false} ReportIsOk(s: System, p: Process, reply: Reply)
    requires Ok(s) && s.process == Some(p) && p.stage.Report?
    ensures Ok(Execute(s, p, reply)) && Grows(s, Execute(s, p, reply))
  {
    NextRowIsOk(p, s.rows, s.server);
    ProcessMoves(s, p, MarkFailure, s.server);
    ServerMoves(s, s.server, Execute(s, p, reply).process);
  }

  lemma {:induction false} MarkIsOk(s: System, p: Process, reply: Reply)
    requires Ok(s) && s.process == Some(p)
    requires p.stage.MarkTeam? || p.stage.MarkProject? || p.stage.MarkScan? || p.stage.MarkFailure?
    ensures Ok(Execute(s, p, reply)) && Grows(s, Execute(s, p, reply))
  {
    var t, i := Execute(s, p, reply), p.queue[0].id;
    assert RowOk(s.rows[i], s.server);
    if p.stage.MarkFailure? && |p.queue| > 1 {
      assert p.queue[1] in p.queue && WorkOk(p.queue[1], s.rows);
    }
    RowMoves(s, i, t.rows[i], t.process);
  }

  lemma {:induction false} SeedGrows(rows: seq<Row>, targets: seq<Target>, s: Server)
    requires forall r | r in rows :: RowOk(r, s)
    ensures RowsGrow(rows, Seed(rows, targets)) && forall r | r in Seed(rows, targets) :: RowOk(r, s)
  {
    if targets != [] {
      SeedGrows(rows, targets[..|targets| - 1], s);
    }
  }

  lemma {:induction false} BeginIsOk(rows: seq<Row>, s: Server, retryFailed: bool, limit: Option<nat>, credential: bool)
    ensures var p := Begin(rows, retryFailed, limit, credential); p.Some? ==> ProcessOk(p.value, rows, s)
  {
    var p := Begin(rows, retryFailed, limit, credential);
    if p.Some? {
      forall w | w in p.value.queue ensures WorkOk(w, rows) {
        BeginsWithDueRows(rows, retryFailed, limit, credential, w);
      }
    }
  }

  lemma {:induction false} StatementIsOk(s: System, p: Process, reply: Reply)
    requires Ok(s) && s.process == Some(p)
    ensures Ok(Execute(s, p, reply)) && Grows(s, Execute(s, p, reply))
  {
    match p.stage
    case EnsureTeam => TeamRequestIsOk(s, p, reply);
    case EnsureProject(_) => ProjectRequestIsOk(s, p, reply);
    case SendCredential(_) => ScanRequestIsOk(s, p, reply);
    case TriggerScan(_) => ScanRequestIsOk(s, p, reply);
    case Report => ReportIsOk(s, p, reply);
    case _ => MarkIsOk(s, p, reply);
  }

  lemma {:induction false} BetweenPassesIsOk(s: System, e: Event)
    requires Ok(s) && (e.SeedRows? || e.StartPass?)
    ensures Ok(Next(s, e)) && Grows(s, Next(s, e))
  {
    if s.process.None? {
      if e.SeedRows? {
        SeedGrows(s.rows, e.targets, s.server);
      } else {
        BeginIsOk(s.rows, s.server, e.retryFailed, e.limit, e.credential);
        ServerMoves(s, s.server, Next(s, e).process);
      }
    }
  }

  lemma {:induction false} StepIsOk(s: System, e: Event)
    requires Ok(s)
    ensures Ok(Next(s, e)) && Grows(s, Next(s, e))
  {
    match e
    case SeedRows(targets) => BetweenPassesIsOk(s, e);
    case StartPass(retryFailed, limit, credential) => BetweenPassesIsOk(s, e);
    case Statement(reply) => if s.process.Some? { StatementIsOk(s, s.process.value, reply); }
    case Interrupt => ServerMoves(s, s.server, None);
    case OtherTeam(slug) =>
      AddTeamGrows(s.server, slug);
      OtherIsOk(s, AddTeam(s.server, slug));
    case OtherProject(team, slug) =>
      AddProjectGrows(s.server, team, slug);
      OtherIsOk(s, AddProject(s.server, team, slug));
  }

  lemma {:induction false} OtherIsOk(s: System, server: Server)
    requires Ok(s) && ServerOk(server) && ServerGrows(s.server, server)
    ensures Ok(s.(server := server)) && Grows(s, s.(server := server))
  {
    if s.process.Some? {
      var p := s.process.value;
      StageStaysOk(p.stage, s.rows[p.queue[0].id], s.rows[p.queue[0].id], s.server, server);
    }
    ServerMoves(s, server, s.process);
  }

  lemma {:induction false} GrowsTransitive(a: System, b: System, c: System)
    requires Grows(a, b) && Grows(b, c)
    ensures Grows(a, c)
  {
    forall i | 0 <= i < |a.rows| ensures RowGrows(a.rows[i], c.rows[i]) {
      assert RowGrows(a.rows[i], b.rows[i]) && RowGrows(b.rows[i], c.rows[i]);
    }
  }

  /** Whatever is interrupted, lost, rejected or retried, and whoever else creates teams and projects meanwhile:
      every row stays true to the server and no recorded id is ever lost. */
  lemma {:induction false} EveryRunIsSound(s: System, events: seq<Event>)
    requires Ok(s)
    ensures Ok(Run(s, events)) && Grows(s, Run(s, events))
  {
    if events != [] {
      var front := Run(s, events[..|events| - 1]);
      EveryRunIsSound(s, events[..|events| - 1]);
      StepIsOk(front, events[|events| - 1]);
      GrowsTransitive(s, front, Run(s, events));
    }
  }

  /** Read off for one row of a run from nothing. */
  lemma {:induction false} RegisteredMeansScanned(events: seq<Event>, i: nat)
    requires i < |Run(EMPTY, events).rows| && Run(EMPTY, events).rows[i].status == Registered
    ensures var s := Run(EMPTY, events);
      var r := s.rows[i];
      && r.teamId.Some? && r.projectId.Some? && r.scanId.Some?
      && r.team in s.server.teams && s.server.teams[r.team] == r.teamId.value
      && (r.teamId.value, r.project) in s.server.projects
      && s.server.projects[(r.teamId.value, r.project)] == r.projectId.value
      && r.scanId.value in s.server.scans && s.server.scans[r.scanId.value] == r.projectId.value
  {
    EveryRunIsSound(EMPTY, events);
    assert Run(EMPTY, events).rows[i] in Run(EMPTY, events).rows;
  }

  /** Two registered rows of different targets are two projects. */
  lemma {:induction false} DifferentTargetsDifferentProjects(events: seq<Event>, i: nat, j: nat)
    requires var s := Run(EMPTY, events);
      && i < |s.rows| && j < |s.rows| && s.rows[i].status == Registered && s.rows[j].status == Registered
      && (s.rows[i].team != s.rows[j].team || s.rows[i].project != s.rows[j].project)
    ensures Run(EMPTY, events).rows[i].projectId != Run(EMPTY, events).rows[j].projectId
  {
    EveryRunIsSound(EMPTY, events);
    RegisteredMeansScanned(events, i);
    RegisteredMeansScanned(events, j);
  }

  // ---------------------------------------------------------------- attempts

  /** Row `i` is marked failed. */
  ghost predicate Fails(s: System, e: Event, i: nat) {
    && e.Statement? && s.process.Some? && s.process.value.stage.MarkFailure?
    && s.process.value.queue != [] && s.process.value.queue[0].id == i
  }

  ghost function FailuresOf(events: seq<Event>, i: nat): nat {
    if events == [] then 0
    else
      var front, e := events[..|events| - 1], events[|events| - 1];
      FailuresOf(front, i) + if Fails(Run(EMPTY, front), e, i) && i < |Run(EMPTY, front).rows| then 1 else 0
  }

  lemma {:induction false} SeedStartsAtZero(rows: seq<Row>, targets: seq<Target>, i: nat)
    requires i < |Seed(rows, targets)|
    ensures |rows| <= |Seed(rows, targets)|
    ensures if i < |rows| then Seed(rows, targets)[i] == rows[i]
            else var r := Seed(rows, targets)[i];
              && r.teamId == None && r.projectId == None && r.scanId == None && r.status == Pending && r.attempts == 0
              && exists t | t in targets :: t.team == r.team && t.project == r.project
  {
    if targets != [] {
      var front, last := targets[..|targets| - 1], targets[|targets| - 1];
      assert last in targets && forall t | t in front :: t in targets;
      if i < |Seed(rows, front)| {
        SeedStartsAtZero(rows, front, i);
      } else {
        SeedLonger(rows, front);
      }
    }
  }

  lemma {:induction false} SeedLonger(rows: seq<Row>, targets: seq<Target>)
    ensures |rows| <= |Seed(rows, targets)|
  {
    if targets != [] {
      SeedLonger(rows, targets[..|targets| - 1]);
    }
  }

  lemma {:induction false} AttemptsStep(s: System, e: Event, i: nat, n: nat)
    requires Ok(s) && (if i < |s.rows| then s.rows[i].attempts == n else n == 0)
    ensures var t := Next(s, e);
      i < |t.rows| ==> t.rows[i].attempts == n + if Fails(s, e, i) && i < |s.rows| then 1 else 0
    ensures i < |s.rows| ==> i < |Next(s, e).rows|
    ensures i >= |Next(s, e).rows| ==> i >= |s.rows|
  {
    if e.SeedRows? {
      SeedLonger(s.rows, e.targets);
      if i < |Seed(s.rows, e.targets)| {
        SeedStartsAtZero(s.rows, e.targets, i);
      }
    }
  }

  /** The attempts a row shows are the times it was marked failed. */
  lemma {:induction false} AttemptsAreFailures(events: seq<Event>, i: nat)
    ensures if i < |Run(EMPTY, events).rows| then Run(EMPTY, events).rows[i].attempts == FailuresOf(events, i)
            else FailuresOf(events, i) == 0
  {
    if events != [] {
      var front, e := events[..|events| - 1], events[|events| - 1];
      AttemptsAreFailures(front, i);
      EveryRunIsSound(EMPTY, front);
      AttemptsStep(Run(EMPTY, front), e, i, FailuresOf(front, i));
    }
  }

  // ---------------------------------------------------------------- credentials

  /** Every scan so far was of a project that held a credential, and the pass under way will keep it so. */
  ghost predicate KeyedFirst(s: System) {
    && (forall x | x in s.server.scans :: s.server.scans[x] in s.server.keyed)
    && (s.process.Some? ==>
          var p := s.process.value;
          p.credential && (p.stage.TriggerScan? ==> p.stage.project in s.server.keyed))
  }

  lemma {:induction false} StatementKeyedFirst(s: System, p: Process, reply: Reply)
    requires KeyedFirst(s) && s.process == Some(p) && p.queue != [] && p.queue[0].id < |s.rows|
    ensures KeyedFirst(Execute(s, p, reply))
  {
  }

  /** With a credential, every pass sends it to a project before it asks for a scan of the project, however often it is
      interrupted, refused or resumed. */
  lemma {:induction false} CredentialPrecedesScan(events: seq<Event>)
    requires forall e | e in events && e.StartPass? :: e.credential
    ensures KeyedFirst(Run(EMPTY, events))
    ensures var server := Run(EMPTY, events).server; forall x | x in server.scans :: server.scans[x] in server.keyed
  {
    if events != [] {
      var front, e := events[..|events| - 1], events[|events| - 1];
      assert e in events;
      CredentialPrecedesScan(front);
      var s := Run(EMPTY, front);
      if e.Statement? && s.process.Some? && s.process.value.queue != [] && s.process.value.queue[0].id < |s.rows| {
        StatementKeyedFirst(s, s.process.value, e.reply);
      }
    }
  }

  // ---------------------------------------------------------------- scan ids

  /** A pass meets its rows in id order, each as it was selected, and only rows that were not registered. */
  ghost predicate QueueOk(p: Process, rows: seq<Row>) {
    && p.queue != [] && Ascending(p.queue)
    && (forall w | w in p.queue :: w.id < |rows| && w.snapshot.status != Registered)
    && (forall k | 1 <= k < |p.queue| :: rows[p.queue[k].id] == p.queue[k].snapshot)
    && CurrentOk(p, rows)
  }

  ghost predicate Ascending(queue: seq<Work>) {
    forall j, k | 0 <= j < k < |queue| :: queue[j].id < queue[k].id
  }

  /** Until its new scan is recorded the current row keeps the status and scan it was selected with. */
  ghost predicate CurrentOk(p: Process, rows: seq<Row>)
    requires p.queue != [] && forall w | w in p.queue :: w.id < |rows|
  {
    var r, snap := rows[p.queue[0].id], p.queue[0].snapshot;
    && (!p.stage.Report? && !p.stage.MarkFailure? ==> r.status == snap.status && r.scanId == snap.scanId)
    && (p.stage.MarkScan? ==> r.scanId != Some(p.stage.scan))
  }

  ghost predicate Unscanned(rows: seq<Row>) {
    forall r | r in rows && r.status == Pending :: r.scanId.None?
  }

  ghost predicate Firm(s: System) {
    Ok(s) && Unscanned(s.rows) && (s.process.Some? ==> QueueOk(s.process.value, s.rows))
  }

  lemma {:induction false} FinishIsFirm(p: Process, rows: seq<Row>, r: Row)
    requires QueueOk(p, rows) && |p.queue| > 1
    ensures QueueOk(Finish(p).value, rows[p.queue[0].id := r])
  {
    var rest, i := p.queue[1..], p.queue[0].id;
    assert forall w | w in rest :: w in p.queue;
    forall k | 0 <= k < |rest| ensures rows[i := r][rest[k].id] == rest[k].snapshot {
      assert rest[k] == p.queue[k + 1] && i < p.queue[k + 1].id && p.queue[k + 1] in p.queue;
    }
  }

  lemma {:induction false} MoveIsFirm(p: Process, rows: seq<Row>, r: Row, stage: Stage)
    requires QueueOk(p, rows)
    requires CurrentOk(p.(stage := stage), rows[p.queue[0].id := r])
    ensures QueueOk(p.(stage := stage), rows[p.queue[0].id := r])
  {
    var i := p.queue[0].id;
    forall k | 1 <= k < |p.queue| ensures rows[i := r][p.queue[k].id] == p.queue[k].snapshot {
      assert p.queue[k] in p.queue && i < p.queue[k].id;
    }
  }

  lemma {:induction false} StaysUnscanned(rows: seq<Row>, i: nat, r: Row)
    requires Unscanned(rows) && i < |rows| && (r.status == Pending ==> r.scanId.None?)
    ensures Unscanned(rows[i := r])
  {
    forall x | x in rows[i := r] && x.status == Pending ensures x.scanId.None? {
      assert x == r || x in rows;
    }
  }

  /** A new scan's id is one no row has recorded. */
  lemma {:induction false} NewScanIsNew(s: System, i: nat)
    requires Ok(s) && i < |s.rows|
    ensures s.rows[i].scanId != Some(s.server.next)
  {
    assert s.rows[i] in s.rows && RowOk(s.rows[i], s.server);
  }

  lemma {:induction false} StatementIsFirm(s: System, p: Process, reply: Reply)
    requires Firm(s) && s.process == Some(p)
    ensures Firm(Execute(s, p, reply))
  {
    StatementIsOk(s, p, reply);
    var t, i := Execute(s, p, reply), p.queue[0].id;
    var r := s.rows[i];
    assert r in s.rows && p.queue[0] in p.queue;
    if p.stage.MarkTeam? || p.stage.MarkProject? || p.stage.MarkScan? {
      RecordIsFirm(s, p, reply);
    } else if p.stage.MarkFailure? {
      StaysUnscanned(s.rows, i, Failure(r));
      if |p.queue| > 1 {
        FinishIsFirm(p, s.rows, Failure(r));
      }
    } else {
      RequestIsFirm(s, p, reply);
    }
  }

  lemma {:induction false} RecordIsFirm(s: System, p: Process, reply: Reply)
    requires Firm(s) && s.process == Some(p)
    requires p.stage.MarkTeam? || p.stage.MarkProject? || p.stage.MarkScan?
    ensures var t := Execute(s, p, reply);
      Unscanned(t.rows) && t.process.Some? && QueueOk(t.process.value, t.rows)
  {
    var t, i := Execute(s, p, reply), p.queue[0].id;
    assert s.rows[i] in s.rows && p.queue[0] in p.queue;
    assert t.rows == s.rows[i := t.rows[i]];
    StaysUnscanned(s.rows, i, t.rows[i]);
    MoveIsFirm(p, s.rows, t.rows[i], t.process.value.stage);
  }

  lemma {:induction false} RequestIsFirm(s: System, p: Process, reply: Reply)
    requires Firm(s) && s.process == Some(p)
    requires !p.stage.MarkTeam? && !p.stage.MarkProject? && !p.stage.MarkScan? && !p.stage.MarkFailure?
    ensures var t := Execute(s, p, reply);
      t.rows == s.rows && (t.process.Some? ==> QueueOk(t.process.value, t.rows))
  {
    var t, i := Execute(s, p, reply), p.queue[0].id;
    assert p.queue[0] in p.queue && s.rows[i := s.rows[i]] == s.rows;
    NewScanIsNew(s, i);
    if p.stage.Report? && reply == Answered {
      if |p.queue| > 1 {
        FinishIsFirm(p, s.rows, s.rows[i]);
      }
    } else {
      MoveIsFirm(p, s.rows, s.rows[i], t.process.value.stage);
    }
  }

  lemma {:induction false} SeedIsUnscanned(rows: seq<Row>, targets: seq<Target>)
    requires Unscanned(rows)
    ensures Unscanned(Seed(rows, targets))
  {
    if targets != [] {
      SeedIsUnscanned(rows, targets[..|targets| - 1]);
    }
  }

  lemma {:induction false} QueueAscends(rows: seq<Row>, ids: seq<nat>, q: seq<Work>)
    requires forall k | 0 <= k < |ids| :: ids[k] < |rows|
    requires (forall j, k | 0 <= j < k < |ids| :: ids[j] < ids[k]) && q == Queue(rows, ids)
    ensures Ascending(q) && forall k | 0 <= k < |q| :: rows[q[k].id] == q[k].snapshot
  {
    forall j, k | 0 <= j < k < |q| ensures q[j].id < q[k].id {
      assert q[j].id == ids[j] && q[k].id == ids[k];
    }
  }

  lemma {:induction false} BeginIsFirm(rows: seq<Row>, retryFailed: bool, limit: Option<nat>, credential: bool)
    ensures var p := Begin(rows, retryFailed, limit, credential); p.Some? ==> QueueOk(p.value, rows)
  {
    var p := Begin(rows, retryFailed, limit, credential);
    if p.Some? {
      var kept := Kept(rows, retryFailed, limit);
      forall w | w in p.value.queue ensures w.id < |rows| && w.snapshot.status != Registered {
        BeginsWithDueRows(rows, retryFailed, limit, credential, w);
      }
      QueueAscends(rows, kept, Queue(rows, kept));
    }
  }

  lemma {:induction false} StepIsFirm(s: System, e: Event)
    requires Firm(s)
    ensures Firm(Next(s, e))
  {
    StepIsOk(s, e);
    match e
    case SeedRows(targets) => SeedIsUnscanned(s.rows, targets);
    case StartPass(retryFailed, limit, credential) => BeginIsFirm(s.rows, retryFailed, limit, credential);
    case Statement(reply) => if s.process.Some? { StatementIsFirm(s, s.process.value, reply); }
    case Interrupt =>
    case OtherTeam(_) =>
    case OtherProject(_, _) =>
  }

  /** The statement that records a new scan for row `i`. */
  ghost predicate Rescans(s: System, e: Event, i: nat) {
    && e.Statement? && s.process.Some? && s.process.value.stage.MarkScan?
    && s.process.value.queue != [] && s.process.value.queue[0].id == i
  }

  lemma {:induction false} SeedKeepsRow(rows: seq<Row>, targets: seq<Target>, i: nat)
    requires i < |rows|
    ensures i < |Seed(rows, targets)| && Seed(rows, targets)[i] == rows[i]
  {
    if targets != [] {
      SeedKeepsRow(rows, targets[..|targets| - 1], i);
    }
  }

  /** A recorded scan id changes at exactly one kind of step, and that step finds the row failed: it was failed while
      holding the id, and the pass retried it. */
  lemma {:induction false} ScanIdChangesIff(s: System, e: Event, i: nat)
    requires Firm(s) && i < |s.rows| && s.rows[i].scanId.Some?
    ensures i < |Next(s, e).rows|
    ensures Next(s, e).rows[i].scanId != s.rows[i].scanId <==> Rescans(s, e, i)
    ensures Rescans(s, e, i) ==> s.rows[i].status == Failed && s.process.value.queue[0].snapshot.status == Failed
  {
    if e.SeedRows? {
      SeedKeepsRow(s.rows, e.targets, i);
    } else if e.Statement? && s.process.Some? {
      var p := s.process.value;
      assert p.queue[0] in p.queue && s.rows[p.queue[0].id] in s.rows;
    }
  }

  /** So over any run it stays, unless the row was failed with it and retried. */
  lemma {:induction false} ScanIdStays(s: System, events: seq<Event>, i: nat)
    requires Firm(s) && i < |s.rows| && s.rows[i].scanId.Some?
    requires forall n | 0 <= n < |events| :: !Rescans(Run(s, events[..n]), events[n], i)
    ensures Firm(Run(s, events)) && i < |Run(s, events).rows| && Run(s, events).rows[i].scanId == s.rows[i].scanId
  {
    if events != [] {
      var front, e := events[..|events| - 1], events[|events| - 1];
      forall n | 0 <= n < |front| ensures !Rescans(Run(s, front[..n]), front[n], i) {
        assert front[..n] == events[..n];
      }
      ScanIdStays(s, front, i);
      StepIsFirm(Run(s, front), e);
      ScanIdChangesIff(Run(s, front), e, i);
    }
  }

  ghost predicate FreshOnly(s: System) {
    s.process.Some? ==> forall w | w in s.process.value.queue :: w.snapshot.status == Pending
  }

  lemma {:induction false} BeginsFresh(rows: seq<Row>, limit: Option<nat>, credential: bool)
    ensures var p := Begin(rows, false, limit, credential);
      p.Some? ==> forall w | w in p.value.queue :: w.snapshot.status == Pending
  {
    var p := Begin(rows, false, limit, credential);
    if p.Some? {
      forall w | w in p.value.queue ensures w.snapshot.status == Pending {
        BeginsWithDueRows(rows, false, limit, credential, w);
      }
    }
  }

  lemma {:induction false} StaysFresh(s: System, e: Event)
    requires Firm(s) && FreshOnly(s) && !(e.StartPass? && e.retryFailed)
    ensures FreshOnly(Next(s, e))
  {
    if e.StartPass? {
      BeginsFresh(s.rows, e.limit, e.credential);
    } else if e.Statement? && s.process.Some? {
      var p := s.process.value;
      assert forall w | w in p.queue[1..] :: w in p.queue;
    }
  }

  /** Passes that do not retry failed rows never change a recorded scan id. */
  lemma {:induction false} WithoutRetryScansStay(s: System, events: seq<Event>, i: nat)
    requires Firm(s) && FreshOnly(s) && i < |s.rows| && s.rows[i].scanId.Some?
    requires forall e | e in events :: !(e.StartPass? && e.retryFailed)
    ensures var t := Run(s, events);
      Firm(t) && FreshOnly(t) && i < |t.rows| && t.rows[i].scanId == s.rows[i].scanId
  {
    if events != [] {
      var front, e := events[..|events| - 1], events[|events| - 1];
      assert e in events;
      WithoutRetryScansStay(s, front, i);
      var before := Run(s, front);
      StepIsFirm(before, e);
      StaysFresh(before, e);
      ScanIdChangesIff(before, e, i);
    }
  }

  /** The pass that starts takes up row `i`, which already holds a scan id. */
  ghost predicate Picks(s: System, e: Event, i: nat) {
    && e.StartPass? && s.process.None? && i < |s.rows| && s.rows[i].scanId.Some?
    && i in Kept(s.rows, e.retryFailed, e.limit)
  }

  /** The pass under way did not take row `i` up with a scan id. */
  ghost predicate Unpicked(s: System, i: nat) {
    s.process.Some? ==> forall w | w in s.process.value.queue && w.id == i :: w.snapshot.scanId.None?
  }

  lemma {:induction false} BeginUnpicked(s: System, e: Event, i: nat)
    requires e.StartPass? && s.process.None? && i < |s.rows| && !Picks(s, e, i)
    ensures Unpicked(Next(s, e), i)
  {
    var p := Next(s, e).process;
    if p.Some? {
      var kept := Kept(s.rows, e.retryFailed, e.limit);
      forall w | w in p.value.queue && w.id == i ensures w.snapshot.scanId.None? {
        var k :| 0 <= k < |kept| && Queue(s.rows, kept)[k] == w;
        assert kept[k] in kept;
      }
    }
  }

  lemma {:induction false} StaysUnpicked(s: System, e: Event, i: nat)
    requires Firm(s) && i < |s.rows| && Unpicked(s, i) && !Picks(s, e, i)
    ensures Unpicked(Next(s, e), i)
  {
    if e.StartPass? && s.process.None? {
      BeginUnpicked(s, e, i);
    } else if e.Statement? && s.process.Some? {
      var p := s.process.value;
      assert forall w | w in p.queue[1..] :: w in p.queue;
    }
  }

  /** Over any run in which no pass takes the row up with the scan id it holds, the id stays. */
  lemma {:induction false} UnpickedScanStays(s: System, events: seq<Event>, i: nat)
    requires Firm(s) && Unpicked(s, i) && i < |s.rows| && s.rows[i].scanId.Some?
    requires forall n | 0 <= n < |events| :: !Picks(Run(s, events[..n]), events[n], i)
    ensures var t := Run(s, events);
      Firm(t) && Unpicked(t, i) && i < |t.rows| && t.rows[i].scanId == s.rows[i].scanId
  {
    if events != [] {
      var front, e := events[..|events| - 1], events[|events| - 1];
      forall n | 0 <= n < |front| ensures !Picks(Run(s, front[..n]), front[n], i) {
        assert front[..n] == events[..n];
      }
      UnpickedScanStays(s, front, i);
      UnpickedStep(Run(s, front), e, i);
    }
  }

  lemma {:induction false} UnpickedStep(s: System, e: Event, i: nat)
    requires Firm(s) && Unpicked(s, i) && i < |s.rows| && s.rows[i].scanId.Some? && !Picks(s, e, i)
    ensures var t := Next(s, e);
      Firm(t) && Unpicked(t, i) && i < |t.rows| && t.rows[i].scanId == s.rows[i].scanId
  {
    StepIsFirm(s, e);
    StaysUnpicked(s, e, i);
    ScanIdChangesIff(s, e, i);
    NotRescanned(s, e, i);
  }

  lemma {:induction false} NotRescanned(s: System, e: Event, i: nat)
    requires Firm(s) && Unpicked(s, i) && i < |s.rows| && s.rows[i].scanId.Some?
    ensures !Rescans(s, e, i)
  {
    if s.process.Some? {
      var p := s.process.value;
      assert p.queue[0] in p.queue;
    }
  }

  /** Every run from nothing is firm, so all of this holds of it. */
  lemma {:induction false} EveryRunIsFirm(events: seq<Event>)
    ensures Firm(Run(EMPTY, events))
  {
    if events != [] {
      EveryRunIsFirm(events[..|events| - 1]);
      StepIsFirm(Run(EMPTY, events[..|events| - 1]), events[|events| - 1]);
    }
  }

  // ---------------------------------------------------------------- a scan id without being registered

  ghost predicate Orphaned(r: Row) {
    r.scanId.Some? && r.status != Registered
  }

  ghost predicate AtRow(s: System, i: nat) {
    s.process.Some? && s.process.value.queue != [] && s.process.value.queue[0].id == i
  }

  /** A row comes to hold a scan id without being registered exactly when it was registered and is marked failed; and
      stops doing so exactly when a new scan is recorded for it. */
  lemma {:induction false} OrphanedIff(s: System, e: Event, i: nat)
    requires Firm(s) && i < |s.rows|
    ensures i < |Next(s, e).rows|
    ensures !Orphaned(s.rows[i]) ==>
      (Orphaned(Next(s, e).rows[i]) <==>
         s.rows[i].status == Registered && e.Statement? && AtRow(s, i) && s.process.value.stage.MarkFailure?)
    ensures Orphaned(s.rows[i]) ==> (!Orphaned(Next(s, e).rows[i]) <==> Rescans(s, e, i))
  {
    assert s.rows[i] in s.rows && RowOk(s.rows[i], s.server);
    if e.SeedRows? {
      SeedKeepsRow(s.rows, e.targets, i);
    } else if e.Statement? && s.process.Some? {
      var p := s.process.value;
      assert p.queue[0] in p.queue && s.rows[p.queue[0].id] in s.rows;
    }
  }

  /** And a pass is about to mark a registered row failed exactly when the line that reports the row was not printed. */
  lemma {:induction false} FailsRegisteredIff(s: System, reply: Reply, i: nat)
    requires Firm(s) && i < |s.rows| && s.rows[i].status == Registered && AtRow(s, i)
    requires !s.process.value.stage.MarkFailure?
    ensures var t := Next(s, Statement(reply));
      AtRow(t, i) && t.process.value.stage.MarkFailure? <==> s.process.value.stage.Report? && reply != Answered
  {
    var p := s.process.value;
    assert p.queue[0] in p.queue;
  }

  /** The progress line of some row fails. */
  ghost predicate LosesLine(s: System, e: Event) {
    e.Statement? && e.reply != Answered && s.process.Some? && s.process.value.stage.Report?
  }

  /** Every row that holds a scan id is registered, and none that is registered is about to be failed. */
  ghost predicate NoOrphans(s: System) {
    && (forall i | 0 <= i < |s.rows| :: !Orphaned(s.rows[i]))
    && (s.process.Some? && s.process.value.stage.MarkFailure? ==>
          forall i | 0 <= i < |s.rows| && AtRow(s, i) :: s.rows[i].status != Registered)
  }

  lemma {:induction false} SeedMakesNoOrphans(rows: seq<Row>, targets: seq<Target>)
    requires forall i | 0 <= i < |rows| :: !Orphaned(rows[i])
    ensures forall i | 0 <= i < |Seed(rows, targets)| :: !Orphaned(Seed(rows, targets)[i])
  {
    if targets != [] {
      SeedMakesNoOrphans(rows, targets[..|targets| - 1]);
    }
  }

  lemma {:induction false} StatementMakesNoOrphans(s: System, e: Event)
    requires Firm(s) && NoOrphans(s) && e.Statement? && s.process.Some? && !LosesLine(s, e)
    ensures NoOrphans(Next(s, e))
  {
    var p, t := s.process.value, Next(s, e);
    var i := p.queue[0].id;
    assert p.queue[0] in p.queue && |t.rows| == |s.rows|;
    forall k | 0 <= k < |t.rows| ensures !Orphaned(t.rows[k]) { OrphanedIff(s, e, k); }
    if t.process.Some? && t.process.value.stage.MarkFailure? {
      assert t.process.value.queue == p.queue && t.rows[i].status == s.rows[i].status;
    }
  }

  lemma {:induction false} StepMakesNoOrphans(s: System, e: Event)
    requires Firm(s) && NoOrphans(s) && !LosesLine(s, e)
    ensures NoOrphans(Next(s, e))
  {
    match e
    case SeedRows(targets) => SeedMakesNoOrphans(s.rows, targets);
    case Statement(_) => if s.process.Some? { StatementMakesNoOrphans(s, e); }
    case _ =>
  }

  /** Over every run in which no progress line fails, the rows that hold a scan id are exactly the registered ones. */
  lemma {:induction false} ScannedMeansRegistered(events: seq<Event>, i: nat)
    requires forall n | 0 <= n < |events| :: !LosesLine(Run(EMPTY, events[..n]), events[n])
    requires i < |Run(EMPTY, events).rows|
    ensures var r := Run(EMPTY, events).rows[i]; r.scanId.Some? <==> r.status == Registered
  {
    NoneOrphaned(events);
    EveryRunIsFirm(events);
    assert Run(EMPTY, events).rows[i] in Run(EMPTY, events).rows;
  }

  lemma {:induction false} NoneOrphaned(events: seq<Event>)
    requires forall n | 0 <= n < |events| :: !LosesLine(Run(EMPTY, events[..n]), events[n])
    ensures NoOrphans(Run(EMPTY, events))
  {
    if events != [] {
      var front := events[..|events| - 1];
      forall n | 0 <= n < |front| ensures !LosesLine(Run(EMPTY, front[..n]), front[n]) {
        assert front[..n] == events[..n];
      }
      NoneOrphaned(front);
      EveryRunIsFirm(front);
      StepMakesNoOrphans(Run(EMPTY, front), events[|events| - 1]);
    }
  }

  // ---------------------------------------------------------------- one scan too many

  /** A pass over a table of one row, every request answered, up to the progress line. */
  function Pass(retryFailed: bool): seq<Event> {
    var ok := Statement(Answered);
    [StartPass(retryFailed, None, false)] + [ok, ok] + [ok, ok] + [ok, ok]
  }

  function TeamsAfter(r: Row, s: Server): Server {
    if r.teamId.Some? then s else AddTeam(s, r.team)
  }

  function TeamFor(r: Row, s: Server): Id {
    if r.teamId.Some? then r.teamId.value else AddTeam(s, r.team).teams[r.team]
  }

  function ProjectsAfter(r: Row, s: Server): Server {
    var t := TeamsAfter(r, s);
    if r.projectId.Some? then t else AddProject(t, TeamFor(r, s), r.project)
  }

  function ProjectFor(r: Row, s: Server): Id {
    if r.projectId.Some? then r.projectId.value
    else AddProject(TeamsAfter(r, s), TeamFor(r, s), r.project).projects[(TeamFor(r, s), r.project)]
  }

  /** What the pass leaves of the row. */
  function Scanned(r: Row, s: Server): Row {
    r.(teamId := Some(TeamFor(r, s)), projectId := Some(ProjectFor(r, s)),
       scanId := Some(ProjectsAfter(r, s).next), status := Registered)
  }

  function AfterPass(r: Row, s: Server): System {
    System([Scanned(r, s)], AddScan(ProjectsAfter(r, s), ProjectFor(r, s)),
           Some(Process([Work(0, r)], Report, false)))
  }

  lemma {:induction false} RunOne(s: System, e: Event)
    ensures Run(s, [e]) == Next(s, e)
  {
    assert [e][..0] == [];
    assert Run(s, [e][..0]) == s;
  }

  lemma {:induction false} RunTwo(s: System, a: Event, b: Event)
    ensures Run(s, [a, b]) == Next(Next(s, a), b)
  {
    RunOne(s, a);
    assert [a, b][..1] == [a];
  }

  lemma {:induction false} RunConcat(s: System, a: seq<Event>, b: seq<Event>)
    ensures Run(s, a + b) == Run(Run(s, a), b)
  {
    if b == [] {
      assert a + b == a;
    } else {
      assert (a + b)[..|a + b| - 1] == a + b[..|b| - 1];
      RunConcat(s, a, b[..|b| - 1]);
    }
  }

  lemma {:induction false} SelectsTheRow(r: Row, server: Server, retryFailed: bool)
    requires Due(r, retryFailed)
    ensures Next(System([r], server, None), StartPass(retryFailed, None, false))
         == System([r], server, Some(Process([Work(0, r)], EnsureTeam, false)))
  {
    KeepsTheRow(r, retryFailed);
    QueuesTheRow(r);
  }

  lemma {:induction false} KeepsTheRow(r: Row, retryFailed: bool)
    requires Due(r, retryFailed)
    ensures Kept([r], retryFailed, None) == [0]
  {
    SelectedOneMore([], r, retryFailed);
    assert [] + [r] == [r];
    assert Selected([], retryFailed) == [];
  }

  lemma {:induction false} QueuesTheRow(r: Row)
    ensures Queue([r], [0]) == [Work(0, r)]
  {
    var none: seq<nat> := [];
    assert [0][1..] == none;
    assert Queue([r], none) == [];
  }

  lemma {:induction false} TeamAndProject(r: Row, server: Server, s: System)
    requires s == System([r], server, Some(Process([Work(0, r)], EnsureTeam, false)))
    ensures var ok := Statement(Answered);
      var named := r.(teamId := Some(TeamFor(r, server)), projectId := Some(ProjectFor(r, server)));
      Run(Run(s, [ok, ok]), [ok, ok])
        == System([named], ProjectsAfter(r, server),
                  Some(Process([Work(0, r)], TriggerScan(ProjectFor(r, server)), false)))
  {
    var ok, queue := Statement(Answered), [Work(0, r)];
    var t, q := TeamFor(r, server), ProjectFor(r, server);
    RunTwo(s, ok, ok);
    var s1, s2 := Next(s, ok), Next(Next(s, ok), ok);
    RunTwo(s2, ok, ok);
    assert s1 == System([r], TeamsAfter(r, server), Some(Process(queue, MarkTeam(t), false)));
    assert s2 == System([r.(teamId := Some(t))], TeamsAfter(r, server), Some(Process(queue, EnsureProject(t), false)));
    var s3 := Next(s2, ok);
    assert s3 == System(s2.rows, ProjectsAfter(r, server), Some(Process(queue, MarkProject(q), false)));
  }

  lemma {:induction false} ScanAndRecord(r: Row, named: Row, server: Server, q: Id, s: System)
    requires s == System([named], server, Some(Process([Work(0, r)], TriggerScan(q), false)))
    ensures var ok := Statement(Answered);
      Run(s, [ok, ok])
        == System([named.(scanId := Some(server.next), status := Registered)], AddScan(server, q),
                  Some(Process([Work(0, r)], Report, false)))
  {
    var ok := Statement(Answered);
    RunTwo(s, ok, ok);
    assert Next(s, ok)
        == System([named], AddScan(server, q), Some(Process([Work(0, r)], MarkScan(server.next), false)));
  }

  lemma {:induction false} PassLeads(r: Row, server: Server, retryFailed: bool)
    requires Due(r, retryFailed)
    ensures Run(System([r], server, None), Pass(retryFailed)) == AfterPass(r, server)
  {
    var s, ok := System([r], server, None), Statement(Answered);
    var start := StartPass(retryFailed, None, false);
    RunConcat(s, [start], [ok, ok]);
    RunConcat(s, [start] + [ok, ok], [ok, ok]);
    RunConcat(s, [start] + [ok, ok] + [ok, ok], [ok, ok]);
    RunOne(s, start);
    SelectsTheRow(r, server, retryFailed);
    var begun := System([r], server, Some(Process([Work(0, r)], EnsureTeam, false)));
    TeamAndProject(r, server, begun);
    var named := r.(teamId := Some(TeamFor(r, server)), projectId := Some(ProjectFor(r, server)));
    var q := ProjectFor(r, server);
    var triggering := System([named], ProjectsAfter(r, server), Some(Process([Work(0, r)], TriggerScan(q), false)));
    ScanAndRecord(r, named, ProjectsAfter(r, server), q, triggering);
  }

  /** The progress line fails, and the row is marked failed with its scan recorded. */
  lemma {:induction false} LostLineFails(r: Row, server: Server)
    ensures Run(AfterPass(r, server), [Statement(Lost), Statement(Answered)])
         == System([Failure(Scanned(r, server))], AfterPass(r, server).server, None)
  {
    var s, lost, ok := AfterPass(r, server), Statement(Lost), Statement(Answered);
    RunTwo(s, lost, ok);
    assert Next(s, lost) == s.(process := Some(Process([Work(0, r)], MarkFailure, false)));
  }

  /** For any row that is due, on any server: if the line that reports its scan fails, a retried pass triggers a second
      scan on the same project and records that one instead. */
  lemma {:induction false} LostLineScansTwice(r: Row, server: Server, retryFailed: bool)
    requires Due(r, retryFailed)
    ensures var s := System([r], server, None);
      var once := Run(s, Pass(retryFailed));
      var failed := Run(s, Pass(retryFailed) + [Statement(Lost), Statement(Answered)]);
      var twice := Run(s, Pass(retryFailed) + [Statement(Lost), Statement(Answered)] + Pass(true));
      && |once.rows| == |failed.rows| == |twice.rows| == 1
      && failed.rows[0].status == Failed && failed.rows[0].scanId == once.rows[0].scanId
      && var x, y := once.rows[0].scanId, twice.rows[0].scanId;
      && x.Some? && y.Some? && x != y
      && x.value in twice.server.scans && y.value in twice.server.scans
      && twice.server.scans[x.value] == twice.server.scans[y.value] == ProjectFor(r, server)
      && twice.rows[0].projectId == once.rows[0].projectId == Some(ProjectFor(r, server))
  {
    var s, lost := System([r], server, None), [Statement(Lost), Statement(Answered)];
    PassLeads(r, server, retryFailed);
    RunConcat(s, Pass(retryFailed), lost);
    RunConcat(s, Pass(retryFailed) + lost, Pass(true));
    LostLineFails(r, server);
    var again, later := Failure(Scanned(r, server)), AfterPass(r, server).server;
    PassLeads(again, later, true);
    assert AfterPass(again, later).rows[0].scanId == Some(later.next);
  }

  // ---------------------------------------------------------------- a pass that meets no failure

  /** `n` statements in a row, each answered. */
  function Answer(s: System, n: nat): System
    decreases n
  {
    if n == 0 then s else Answer(Next(s, Statement(Answered)), n - 1)
  }

  function StageRank(stage: Stage): nat {
    match stage
    case EnsureTeam => 8
    case MarkTeam(_) => 7
    case EnsureProject(_) => 6
    case MarkProject(_) => 5
    case SendCredential(_) => 4
    case TriggerScan(_) => 3
    case MarkScan(_) => 2
    case Report => 1
    case MarkFailure => 0
  }

  /** Statements left, counting nine for each queued row. */
  function Left(p: Process): nat
    requires p.queue != []
  {
    9 * (|p.queue| - 1) + StageRank(p.stage)
  }

  /** The pass is on track: nothing failed, and a row about to be reported is registered. */
  ghost predicate OnTrack(s: System, p: Process) {
    && Ok(s) && s.process == Some(p) && !p.stage.MarkFailure?
    && (p.stage.Report? ==> s.rows[p.queue[0].id].status == Registered)
  }

  lemma {:induction false} AnsweredKeepsRegistered(s: System, p: Process)
    requires OnTrack(s, p)
    ensures var t := Execute(s, p, Answered);
      && (forall i | 0 <= i < |s.rows| && s.rows[i].status == Registered ::
            i < |t.rows| && t.rows[i].status == Registered)
      && (p.stage.MarkScan? ==> t.rows[p.queue[0].id].status == Registered)
  {
  }

  lemma {:induction false} AnsweredStep(s: System, p: Process)
    requires OnTrack(s, p)
    ensures var t := Next(s, Statement(Answered));
      && (forall i | 0 <= i < |s.rows| && s.rows[i].status == Registered ::
            i < |t.rows| && t.rows[i].status == Registered)
      && (t.process.None? ==> |p.queue| == 1 && p.stage.Report?)
      && (t.process.Some? ==> OnTrack(t, t.process.value))
      && (t.process.Some? ==> Left(t.process.value) < Left(p))
      && (t.process.Some? ==> t.process.value.queue == (if p.stage.Report? then p.queue[1..] else p.queue))
  {
    var t := Next(s, Statement(Answered));
    StatementIsOk(s, p, Answered);
    assert t == Execute(s, p, Answered);
    AnsweredKeepsRegistered(s, p);
    if p.stage.Report? {
      assert t.process == Finish(p);
    } else {
      assert t.process.Some? && t.process.value.queue == p.queue;
    }
  }

  /** If every request is answered the pass ends, and every row it selected is registered. */
  lemma {:induction false} AnsweredPassRegisters(s: System, p: Process) returns (n: nat)
    requires OnTrack(s, p)
    ensures Answer(s, n).process.None?
    ensures forall i | 0 <= i < |s.rows| && s.rows[i].status == Registered ::
      i < |Answer(s, n).rows| && Answer(s, n).rows[i].status == Registered
    ensures forall w | w in p.queue :: w.id < |Answer(s, n).rows| && Answer(s, n).rows[w.id].status == Registered
    decreases Left(p)
  {
    AnsweredStep(s, p);
    var t := Next(s, Statement(Answered));
    if t.process.None? {
      n := 1;
      assert Answer(s, 1) == Answer(t, 0) == t;
      assert forall w | w in p.queue :: w == p.queue[0];
    } else {
      var m := AnsweredPassRegisters(t, t.process.value);
      n := m + 1;
      assert Answer(s, n) == Answer(t, m);
      forall w | w in p.queue
        ensures w.id < |Answer(s, n).rows| && Answer(s, n).rows[w.id].status == Registered
      {
        assert w in t.process.value.queue || (p.stage.Report? && w == p.queue[0]);
      }
    }
  }

  // ---------------------------------------------------------------- seeding

  lemma {:induction false} SeedKeeps(rows: seq<Row>, targets: seq<Target>, t: Target)
    ensures Tracked(rows, t) ==> Tracked(Seed(rows, targets), t)
    ensures t in targets ==> Tracked(Seed(rows, targets), t)
  {
    if targets != [] {
      SeedKeeps(rows, targets[..|targets| - 1], t);
      var before, last := Seed(rows, targets[..|targets| - 1]), targets[|targets| - 1];
      if !Tracked(before, last) {
        var after := before + [Row(last.team, last.project, None, None, None, Pending, 0)];
        assert after[|before|] in after;
        if Tracked(before, t) {
          var r :| r in before && r.team == t.team && r.project == t.project;
          assert r in after;
        }
      }
    }
  }

  lemma {:induction false} SeedingTrackedIsNothing(rows: seq<Row>, targets: seq<Target>)
    requires forall t | t in targets :: Tracked(rows, t)
    ensures Seed(rows, targets) == rows
  {
    if targets != [] {
      assert targets[|targets| - 1] in targets;
      SeedingTrackedIsNothing(rows, targets[..|targets| - 1]);
    }
  }

  /** Seeding the same spec again changes nothing, so a resumed run never duplicates a target. */
  lemma {:induction false} SeedingIsIdempotent(rows: seq<Row>, targets: seq<Target>)
    ensures Seed(Seed(rows, targets), targets) == Seed(rows, targets)
  {
    forall t | t in targets ensures Tracked(Seed(rows, targets), t) { SeedKeeps(rows, targets, t); }
    SeedingTrackedIsNothing(Seed(rows, targets), targets);
  }
}
