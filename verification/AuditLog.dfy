/** The two-stage flush hook that writes one audit row for every audited change. */
module AuditLog {
  import opened Prelude

  // ---------------------------------------------------------------- what is recorded

  datatype Cell = Null | Text(text: string) | Stars | Sha256(digest: string)

  type Columns = map<string, Cell>

  /** Library code the hook calls: the PII digest and the URL userinfo mask. */
  datatype Library = Library(digest: Cell -> string, maskUrl: string -> string)

  const SENSITIVE: set<string> := {
    "password", "hashed_password", "password_hash", "secret", "api_key", "token", "token_hash", "refresh_token",
    "refresh_token_hash", "jti", "key_hash", "webhook_secret", "private_key_encrypted", "webhook_secret_encrypted",
    "git_credential_encrypted", "password_encrypted", "mfa_secret_encrypted", "code_hash", "api_token_encrypted" }

  const PII: set<string> := {"email", "full_name", "email_recipients", "owner_contact"}

  const URLS: set<string> := {"git_url", "ticket_url"}

  const NOT_AUDITED: set<string> := {"audit_logs", "alembic_version", "report_downloads", "audit_export_cursors"}

  predicate IsAuditedTable(table: string) {
    table !in NOT_AUDITED
  }

  function MaskCell(column: string, value: Cell, lib: Library): Cell {
    if column in SENSITIVE then Stars
    else if column in PII then (if value.Null? then Null else Sha256(lib.digest(value)))
    else if column in URLS && value.Text? then Text(lib.maskUrl(value.text))
    else value
  }

  function Mask(diff: Columns, lib: Library): Columns {
    map c | c in diff :: MaskCell(c, diff[c], lib)
  }

  datatype Verb = Create | Update | Delete | Archive | Unarchive

  /** A mapped row: its current values, which of them changed since loading, and the values those replaced. */
  datatype Instance = Instance(table: string, columns: Columns, previous: Columns, identity: Option<string>)

  /** Who did it, as the request context says. */
  datatype Context = Context(
    actor: Option<string>, group: Option<string>, request: Option<string>, ip: Option<string>, agent: Option<string>)

  datatype Row = Row(who: Context, verb: Verb, table: string, target: Option<string>, diff: Columns)

  function Get(cols: Columns, c: string): Cell {
    if c in cols then cols[c] else Null
  }

  function Changed(i: Instance): Columns {
    map c | c in i.columns && c in i.previous :: i.columns[c]
  }

  function WithTransition(i: Instance, diff: Columns): Columns {
    if "status" !in diff then diff
    else diff["previous_status" := Get(i.previous, "status")]["new_status" := diff["status"]]
  }

  function UpdateVerb(i: Instance, diff: Columns): Verb {
    if "archived_at" !in diff then Update
    else if Get(i.previous, "archived_at").Null? && !diff["archived_at"].Null? then Archive
    else if !Get(i.previous, "archived_at").Null? && diff["archived_at"].Null? then Unarchive
    else Update
  }

  function TargetOf(i: Instance, diff: Columns): Option<string> {
    if i.identity.Some? then i.identity
    else if Get(diff, "id").Text? then Some(Get(diff, "id").text) else None
  }

  /** `_build_audit_row`. */
  function Build(verb: Verb, i: Instance, who: Context, lib: Library): Option<Row> {
    if !IsAuditedTable(i.table) then None
    else if verb == Update then
      var diff := WithTransition(i, Changed(i));
      var masked := Mask(diff, lib);
      Some(Row(who, UpdateVerb(i, diff), i.table, TargetOf(i, masked), masked))
    else
      var masked := Mask(i.columns, lib);
      Some(Row(who, verb, i.table, TargetOf(i, masked), masked))
  }

  // ---------------------------------------------------------------- the two stages

  datatype Stashed = Stashed(row: Row, pk: string)

  /** An object in `session.dirty`, and whether it is really modified. */
  datatype Touched = Touched(instance: Instance, modified: bool)

  /** An object in `session.new`, with the primary key the INSERT will return for it. */
  datatype Fresh = Fresh(instance: Instance, pk: string)

  function Stash(news: seq<Fresh>, who: Context, lib: Library): seq<Stashed> {
    if news == [] then []
    else
      var last := news[|news| - 1];
      var row := Build(Create, last.instance, who, lib);
      Stash(news[..|news| - 1], who, lib) + if row.Some? then [Stashed(row.value, last.pk)] else []
  }

  function UpdateRows(dirty: seq<Touched>, who: Context, lib: Library): seq<Row> {
    if dirty == [] then []
    else
      var last := dirty[|dirty| - 1];
      var row := Build(Update, last.instance, who, lib);
      UpdateRows(dirty[..|dirty| - 1], who, lib) + if last.modified && row.Some? then [row.value] else []
  }

  function DeleteRows(gone: seq<Instance>, who: Context, lib: Library): seq<Row> {
    if gone == [] then []
    else
      var row := Build(Delete, gone[|gone| - 1], who, lib);
      DeleteRows(gone[..|gone| - 1], who, lib) + if row.Some? then [row.value] else []
  }

  /** A CREATE row once the key is known: target and diff name it, unless they already did. */
  function Backfill(s: Stashed): Row {
    if s.row.target.Some? then s.row
    else s.row.(target := Some(s.pk),
                diff := if Get(s.row.diff, "id").Null? then s.row.diff["id" := Text(s.pk)] else s.row.diff)
  }

  function BackfillAll(pending: seq<Stashed>): seq<Row> {
    if pending == [] then [] else BackfillAll(pending[..|pending| - 1]) + [Backfill(pending[|pending| - 1])]
  }

  /** What the database was told to do, and by whom. */
  datatype Change =
    | Created(instance: Instance, pk: string, who: Context)
    | Updated(instance: Instance, who: Context)
    | Deleted(instance: Instance, who: Context)

  /** The session, its open transaction, and what has been committed. `rows` are what the hook wrote. */
  datatype Session = Session(
    news: seq<Fresh>, dirty: seq<Touched>, gone: seq<Instance>, pending: seq<Stashed>,
    txChanges: seq<Change>, txRows: seq<Row>, changes: seq<Change>, rows: seq<Row>, failed: bool)

  /** The hook's state changes in place; everything else is the unit of work's. */
  class Hook {
    var pending: seq<Stashed>
    var written: seq<Row>

    constructor ()
      ensures pending == [] && written == []
    {
      pending, written := [], [];
    }

    /** `_before_flush`: CREATE rows are stashed, UPDATE and DELETE rows are added at once. */
    method BeforeFlush(news: seq<Fresh>, dirty: seq<Touched>, gone: seq<Instance>, who: Context, lib: Library)
      modifies this
      ensures pending == old(pending) + Stash(news, who, lib)
      ensures written == old(written) + UpdateRows(dirty, who, lib) + DeleteRows(gone, who, lib)
    {
      var stash: seq<Stashed>, rows: seq<Row> := [], [];
      for i := 0 to |news|
        invariant stash == Stash(news[..i], who, lib)
      {
        assert news[..i + 1][..i] == news[..i];
        if news[i].instance.table != "audit_logs" {
          var row := Build(Create, news[i].instance, who, lib);
          if row.Some? {
            stash := stash + [Stashed(row.value, news[i].pk)];
          }
        }
      }
      assert news[..|news|] == news;
      for i := 0 to |dirty|
        invariant rows == UpdateRows(dirty[..i], who, lib)
      {
        assert dirty[..i + 1][..i] == dirty[..i];
        if dirty[i].instance.table != "audit_logs" && dirty[i].modified {
          var row := Build(Update, dirty[i].instance, who, lib);
          if row.Some? {
            rows := rows + [row.value];
          }
        }
      }
      assert dirty[..|dirty|] == dirty;
      ghost var updates := rows;
      for i := 0 to |gone|
        invariant rows == updates + DeleteRows(gone[..i], who, lib)
      {
        assert gone[..i + 1][..i] == gone[..i];
        if gone[i].table != "audit_logs" {
          var row := Build(Delete, gone[i], who, lib);
          if row.Some? {
            rows := rows + [row.value];
          }
        }
      }
      assert gone[..|gone|] == gone;
      written := written + rows;
      pending := pending + stash;
    }

    /** `_after_flush`: pop the stash, fill in the keys, insert. */
    method AfterFlush()
      modifies this
      ensures pending == [] && written == old(written) + BackfillAll(old(pending))
    {
      var popped := pending;
      pending := [];
      var rows: seq<Row> := [];
      for i := 0 to |popped|
        invariant rows == BackfillAll(popped[..i])
      {
        assert popped[..i + 1][..i] == popped[..i];
        var row := popped[i].row;
        if row.target.None? {
          row := row.(target := Some(popped[i].pk));
          if Get(row.diff, "id").Null? {
            row := row.(diff := row.diff["id" := Text(popped[i].pk)]);
          }
        }
        rows := rows + [row];
      }
      assert popped[..|popped|] == popped;
      written := written + rows;
    }

    /** Both stages around one successful flush write exactly what the run's Flush step adds. */
    method AroundFlush(s: Session, who: Context, lib: Library)
      requires pending == s.pending && written == s.txRows
      modifies this
      ensures pending == Next(s, Flush(who), lib).pending && written == Next(s, Flush(who), lib).txRows
    {
      BeforeFlush(s.news, s.dirty, s.gone, who, lib);
      AfterFlush();
    }

    /** `_after_soft_rollback`: the stash of a flush that never finished is dropped with it. */
    method AfterSoftRollback()
      modifies this
      ensures pending == [] && written == old(written)
    {
      pending := [];
    }
  }

  // ---------------------------------------------------------------- runs

  datatype Event =
    | Add(added: Fresh) | Touch(touched: Touched) | Remove(instance: Instance)
    | Flush(who: Context) | FlushFails(who: Context, afterHook: bool) | Commit | Rollback

  function CreatedIn(news: seq<Fresh>, who: Context): seq<Change> {
    if news == [] then []
    else CreatedIn(news[..|news| - 1], who) + [Created(news[|news| - 1].instance, news[|news| - 1].pk, who)]
  }

  function UpdatedIn(dirty: seq<Touched>, who: Context): seq<Change> {
    if dirty == [] then []
    else
      var last := dirty[|dirty| - 1];
      UpdatedIn(dirty[..|dirty| - 1], who) + if last.modified then [Updated(last.instance, who)] else []
  }

  function DeletedIn(gone: seq<Instance>, who: Context): seq<Change> {
    if gone == [] then [] else DeletedIn(gone[..|gone| - 1], who) + [Deleted(gone[|gone| - 1], who)]
  }

  function Next(s: Session, e: Event, lib: Library): Session {
    match e
    case Add(f) => s.(news := s.news + [f])
    case Touch(t) => s.(dirty := s.dirty + [t])
    case Remove(i) => s.(gone := s.gone + [i])
    case Flush(who) =>
      var stashed := s.pending + Stash(s.news, who, lib);
      s.(news := [], dirty := [], gone := [], pending := [],
         txChanges := s.txChanges + (CreatedIn(s.news, who) + UpdatedIn(s.dirty, who) + DeletedIn(s.gone, who)),
         txRows := s.txRows + (UpdateRows(s.dirty, who, lib) + DeleteRows(s.gone, who, lib) + BackfillAll(stashed)))
    case FlushFails(who, afterHook) =>
      s.(pending := if afterHook then [] else s.pending + Stash(s.news, who, lib), failed := true)
    case Commit => s.(changes := s.changes + s.txChanges, rows := s.rows + s.txRows, txChanges := [], txRows := [])
    case Rollback =>
      s.(news := [], dirty := [], gone := [], pending := [], txChanges := [], txRows := [], failed := false)
  }

  /** A new object has no identity yet, and an id it already carries is its key. */
  predicate WellFormed(f: Fresh) {
    f.instance.identity.None? && (Get(f.instance.columns, "id").Null? || Get(f.instance.columns, "id") == Text(f.pk))
  }

  /** What the ORM permits: after a failed flush only a rollback, and a commit flushes first. */
  predicate Legal(s: Session, e: Event) {
    && (s.failed ==> e.Rollback?)
    && (e.Commit? ==> s.news == [] && s.dirty == [] && s.gone == [])
    && (e.Add? ==> WellFormed(e.added))
  }

  const START := Session([], [], [], [], [], [], [], [], false)

  function Run(events: seq<Event>, lib: Library): Session {
    if events == [] then START else Next(Run(events[..|events| - 1], lib), events[|events| - 1], lib)
  }

  ghost predicate LegalRun(events: seq<Event>, lib: Library) {
    forall i | 0 <= i < |events| :: Legal(Run(events[..i], lib), events[i])
  }

  // ---------------------------------------------------------------- exactly once

  /** The audit row a change deserves: a created row is described as it stands with its key known. */
  function RowFor(c: Change, lib: Library): Option<Row> {
    match c
    case Created(i, pk, who) =>
      Build(Create, i.(identity := Some(pk), columns := i.columns["id" := Text(pk)]), who, lib)
    case Updated(i, who) => Build(Update, i, who, lib)
    case Deleted(i, who) => Build(Delete, i, who, lib)
  }

  function RowsFor(changes: seq<Change>, lib: Library): seq<Row> {
    if changes == [] then []
    else
      var row := RowFor(changes[|changes| - 1], lib);
      RowsFor(changes[..|changes| - 1], lib) + if row.Some? then [row.value] else []
  }

  lemma {:induction false} RowsForConcat(a: seq<Change>, b: seq<Change>, lib: Library)
    ensures RowsFor(a + b, lib) == RowsFor(a, lib) + RowsFor(b, lib)
  {
    if b == [] {
      assert a + b == a;
    } else {
      assert (a + b)[..|a + b| - 1] == a + b[..|b| - 1];
      RowsForConcat(a, b[..|b| - 1], lib);
    }
  }

  lemma {:induction false} RowsForOne(c: Change, lib: Library)
    ensures RowsFor([c], lib) == if RowFor(c, lib).Some? then [RowFor(c, lib).value] else []
  {
    assert [c][..0] == [];
    assert RowsFor([c][..0], lib) == [];
  }

  lemma {:induction false} BackfillOneMore(pending: seq<Stashed>, s: Stashed)
    ensures BackfillAll(pending + [s]) == BackfillAll(pending) + [Backfill(s)]
  {
    assert (pending + [s])[..|pending|] == pending;
  }

  lemma {:induction false} UpdatesAreRecorded(dirty: seq<Touched>, who: Context, lib: Library)
    ensures UpdateRows(dirty, who, lib) == RowsFor(UpdatedIn(dirty, who), lib)
  {
    if dirty != [] {
      var front, last := dirty[..|dirty| - 1], dirty[|dirty| - 1];
      UpdatesAreRecorded(front, who, lib);
      RowsForConcat(UpdatedIn(front, who), if last.modified then [Updated(last.instance, who)] else [], lib);
      RowsForOne(Updated(last.instance, who), lib);
    }
  }

  lemma {:induction false} DeletesAreRecorded(gone: seq<Instance>, who: Context, lib: Library)
    ensures DeleteRows(gone, who, lib) == RowsFor(DeletedIn(gone, who), lib)
  {
    if gone != [] {
      DeletesAreRecorded(gone[..|gone| - 1], who, lib);
      RowsForConcat(DeletedIn(gone[..|gone| - 1], who), [Deleted(gone[|gone| - 1], who)], lib);
      RowsForOne(Deleted(gone[|gone| - 1], who), lib);
    }
  }

  /** Stashing before the key is known and filling it in afterwards gives the row that knowing it would have given. */
  lemma {:induction false} BackfillIsExact(f: Fresh, who: Context, lib: Library)
    requires WellFormed(f)
    ensures var early, late := Build(Create, f.instance, who, lib), RowFor(Created(f.instance, f.pk, who), lib);
      early.Some? == late.Some? && (early.Some? ==> Backfill(Stashed(early.value, f.pk)) == late.value)
  {
    var i := f.instance;
    var keyed := i.columns["id" := Text(f.pk)];
    assert "id" !in SENSITIVE && "id" !in PII && "id" !in URLS;
    assert Mask(keyed, lib) == Mask(i.columns, lib)["id" := Text(f.pk)];
    if "id" in i.columns && !i.columns["id"].Null? {
      assert Mask(i.columns, lib)["id" := Text(f.pk)] == Mask(i.columns, lib);
    }
  }

  lemma {:induction false} CreatesAreRecorded(news: seq<Fresh>, who: Context, lib: Library)
    requires forall f | f in news :: WellFormed(f)
    ensures BackfillAll(Stash(news, who, lib)) == RowsFor(CreatedIn(news, who), lib)
  {
    if news != [] {
      var front, last := news[..|news| - 1], news[|news| - 1];
      assert last in news;
      CreatesAreRecorded(front, who, lib);
      BackfillIsExact(last, who, lib);
      RowsForConcat(CreatedIn(front, who), [Created(last.instance, last.pk, who)], lib);
      RowsForOne(Created(last.instance, last.pk, who), lib);
      var row, stash := Build(Create, last.instance, who, lib), Stash(front, who, lib);
      if row.Some? {
        BackfillOneMore(stash, Stashed(row.value, last.pk));
      } else {
        assert stash + [] == stash;
      }
    }
  }

  ghost predicate Matches(rows: seq<Row>, changes: seq<Change>, lib: Library) {
    multiset(rows) == multiset(RowsFor(changes, lib))
  }

  lemma {:induction false} MatchesConcat(r1: seq<Row>, c1: seq<Change>, r2: seq<Row>, c2: seq<Change>, lib: Library)
    requires Matches(r1, c1, lib) && Matches(r2, c2, lib)
    ensures Matches(r1 + r2, c1 + c2, lib)
  {
    RowsForConcat(c1, c2, lib);
  }

  lemma {:induction false} FlushMatches(
    news: seq<Fresh>, dirty: seq<Touched>, gone: seq<Instance>, who: Context, lib: Library)
    requires forall f | f in news :: WellFormed(f)
    ensures Matches(UpdateRows(dirty, who, lib) + DeleteRows(gone, who, lib) + BackfillAll(Stash(news, who, lib)),
                    CreatedIn(news, who) + UpdatedIn(dirty, who) + DeletedIn(gone, who), lib)
  {
    UpdatesAreRecorded(dirty, who, lib);
    DeletesAreRecorded(gone, who, lib);
    CreatesAreRecorded(news, who, lib);
    RowsForConcat(CreatedIn(news, who), UpdatedIn(dirty, who), lib);
    RowsForConcat(CreatedIn(news, who) + UpdatedIn(dirty, who), DeletedIn(gone, who), lib);
  }

  ghost predicate Consistent(s: Session, lib: Library) {
    && Matches(s.rows, s.changes, lib) && Matches(s.txRows, s.txChanges, lib)
    && (!s.failed ==> s.pending == [])
    && forall f | f in s.news :: WellFormed(f)
  }

  lemma {:induction false} FlushIsConsistent(s: Session, who: Context, lib: Library)
    requires Consistent(s, lib) && !s.failed
    ensures Consistent(Next(s, Flush(who), lib), lib)
  {
    var rows := UpdateRows(s.dirty, who, lib) + DeleteRows(s.gone, who, lib) + BackfillAll(Stash(s.news, who, lib));
    var changes := CreatedIn(s.news, who) + UpdatedIn(s.dirty, who) + DeletedIn(s.gone, who);
    FlushMatches(s.news, s.dirty, s.gone, who, lib);
    MatchesConcat(s.txRows, s.txChanges, rows, changes, lib);
    assert s.pending + Stash(s.news, who, lib) == Stash(s.news, who, lib);
  }

  lemma {:induction false} NothingMatches(lib: Library)
    ensures Matches([], [], lib)
  {
  }

  lemma {:induction false} StepIsConsistent(s: Session, e: Event, lib: Library)
    requires Consistent(s, lib) && Legal(s, e)
    ensures Consistent(Next(s, e, lib), lib)
  {
    NothingMatches(lib);
    if e.Flush? {
      FlushIsConsistent(s, e.who, lib);
    } else if e.Commit? {
      MatchesConcat(s.rows, s.changes, s.txRows, s.txChanges, lib);
    }
  }

  /** Over every legal sequence of work, flushes, failed flushes, rollbacks and commits, the committed audit rows
      are those that building one for each committed change gives; and no flush starts with a leftover stash. */
  lemma {:induction false} RowsAreThoseOfTheChanges(events: seq<Event>, lib: Library)
    requires LegalRun(events, lib)
    ensures var s := Run(events, lib);
      multiset(s.rows) == multiset(RowsFor(s.changes, lib)) && (!s.failed ==> s.pending == []) && Consistent(s, lib)
  {
    if events != [] {
      var front := events[..|events| - 1];
      forall i | 0 <= i < |front| ensures Legal(Run(front[..i], lib), front[i]) {
        assert front[..i] == events[..i];
      }
      RowsAreThoseOfTheChanges(front, lib);
      StepIsConsistent(Run(front, lib), events[|events| - 1], lib);
    }
  }

  // ---------------------------------------------------------------- what each row says

  /** Everything but the audit table itself and three tables of bookkeeping. */
  ghost predicate Audited(c: Change) {
    var t := c.instance.table;
    t != "audit_logs" && t != "alembic_version" && t != "report_downloads" && t != "audit_export_cursors"
  }

  ghost function AuditedOnly(changes: seq<Change>): seq<Change> {
    if changes == [] then []
    else
      var c := changes[|changes| - 1];
      AuditedOnly(changes[..|changes| - 1]) + if Audited(c) then [c] else []
  }

  ghost predicate HoldsCredential(column: string) {
    column in {
      "password", "hashed_password", "password_hash", "secret", "api_key", "token", "token_hash", "refresh_token",
      "refresh_token_hash", "jti", "key_hash", "webhook_secret", "private_key_encrypted", "webhook_secret_encrypted",
      "git_credential_encrypted", "password_encrypted", "mfa_secret_encrypted", "code_hash", "api_token_encrypted" }
  }

  ghost predicate HoldsPersonal(column: string) {
    column in {"email", "full_name", "email_recipients", "owner_contact"}
  }

  /** How a value appears in a row: credentials as stars, personal values as digests, URLs less their userinfo, and
      anything else as it is. */
  ghost predicate ShownAs(column: string, value: Cell, shown: Cell, lib: Library) {
    && (HoldsCredential(column) ==> shown == Stars)
    && (!HoldsCredential(column) && HoldsPersonal(column) ==>
          if value == Null then shown == Null else shown == Sha256(lib.digest(value)))
    && (!HoldsCredential(column) && !HoldsPersonal(column) ==>
          if column in {"git_url", "ticket_url"} && value.Text? then shown == Text(lib.maskUrl(value.text))
          else shown == value)
  }

  /** Columns whose value differs from the one loaded. */
  ghost predicate Moved(i: Instance, column: string) {
    column in i.columns && column in i.previous
  }

  ghost predicate DescribesCreate(r: Row, i: Instance, pk: string, lib: Library) {
    && r.verb == Create && r.target == Some(pk)
    && (forall c :: c in r.diff <==> c in i.columns || c == "id")
    && r.diff["id"] == Text(pk)
    && (forall c | c in i.columns && c != "id" :: ShownAs(c, i.columns[c], r.diff[c], lib))
  }

  /** The row's key: the identity the session knows the object by, or else its id. */
  ghost predicate TargetFits(r: Row, i: Instance) {
    if i.identity.Some? then r.target == i.identity
    else if "id" in r.diff && r.diff["id"].Text? then r.target == Some(r.diff["id"].text)
    else r.target == None
  }

  ghost predicate DescribesDelete(r: Row, i: Instance, lib: Library) {
    && r.verb == Delete && TargetFits(r, i)
    && (forall c :: c in r.diff <==> c in i.columns)
    && (forall c | c in i.columns :: ShownAs(c, i.columns[c], r.diff[c], lib))
  }

  /** The verb tells a soft delete and its reversal from other updates. */
  ghost predicate VerbFits(verb: Verb, i: Instance) {
    var gone := "archived_at" in i.columns && i.columns["archived_at"] != Null;
    var was := "archived_at" in i.previous && i.previous["archived_at"] != Null;
    && (verb == Archive <==> Moved(i, "archived_at") && !was && gone)
    && (verb == Unarchive <==> Moved(i, "archived_at") && was && !gone)
    && (verb == Archive || verb == Unarchive || verb == Update)
  }

  /** Only what moved, with both ends of a status transition. */
  ghost predicate DescribesUpdate(r: Row, i: Instance, lib: Library) {
    var transition := Moved(i, "status");
    && VerbFits(r.verb, i) && TargetFits(r, i)
    && (forall c :: c in r.diff <==> Moved(i, c) || (transition && (c == "previous_status" || c == "new_status")))
    && (transition ==> r.diff["previous_status"] == i.previous["status"] && r.diff["new_status"] == i.columns["status"])
    && (forall c | Moved(i, c) && !(transition && (c == "previous_status" || c == "new_status")) ::
          ShownAs(c, i.columns[c], r.diff[c], lib))
  }

  /** The row says of the change what happened, to what, by whom, and how it looked. */
  ghost predicate Describes(r: Row, c: Change, lib: Library) {
    && r.table == c.instance.table && r.who == c.who
    && match c
       case Created(i, pk, _) => DescribesCreate(r, i, pk, lib)
       case Updated(i, _) => DescribesUpdate(r, i, lib)
       case Deleted(i, _) => DescribesDelete(r, i, lib)
  }

  lemma {:induction false} MaskShows(diff: Columns, lib: Library, c: string)
    requires c in diff
    ensures c in Mask(diff, lib) && ShownAs(c, diff[c], Mask(diff, lib)[c], lib)
  {
  }

  lemma {:induction false} PlainIsShown(c: string, value: Cell, shown: Cell, lib: Library)
    requires ShownAs(c, value, shown, lib) && (c == "id" || c == "previous_status" || c == "new_status")
    ensures shown == value
  {
    assert !HoldsCredential(c) && !HoldsPersonal(c) && c !in {"git_url", "ticket_url"};
  }

  lemma {:induction false} CreateIsDescribed(i: Instance, pk: string, who: Context, lib: Library)
    requires Audited(Created(i, pk, who))
    ensures var row := RowFor(Created(i, pk, who), lib); row.Some? && Describes(row.value, Created(i, pk, who), lib)
  {
    var keyed := i.columns["id" := Text(pk)];
    var row := RowFor(Created(i, pk, who), lib).value;
    assert row.diff == Mask(keyed, lib);
    forall c | c in keyed ensures c in row.diff && ShownAs(c, keyed[c], row.diff[c], lib) { MaskShows(keyed, lib, c); }
    PlainIsShown("id", Text(pk), row.diff["id"], lib);
  }

  lemma {:induction false} DeleteIsDescribed(i: Instance, who: Context, lib: Library)
    requires Audited(Deleted(i, who))
    ensures var row := RowFor(Deleted(i, who), lib); row.Some? && Describes(row.value, Deleted(i, who), lib)
  {
    var row := RowFor(Deleted(i, who), lib).value;
    forall c | c in i.columns ensures c in row.diff && ShownAs(c, i.columns[c], row.diff[c], lib) {
      MaskShows(i.columns, lib, c);
    }
  }

  lemma {:induction false} VerbIsRight(i: Instance)
    ensures VerbFits(UpdateVerb(i, WithTransition(i, Changed(i))), i)
  {
    var diff := WithTransition(i, Changed(i));
    assert "archived_at" in diff <==> Moved(i, "archived_at");
    assert Moved(i, "archived_at") ==> diff["archived_at"] == i.columns["archived_at"];
  }

  lemma {:induction false} DiffIsRight(i: Instance, c: string)
    ensures var raw, transition := WithTransition(i, Changed(i)), Moved(i, "status");
      && (c in raw <==> Moved(i, c) || (transition && (c == "previous_status" || c == "new_status")))
      && (transition && c == "previous_status" ==> raw[c] == i.previous["status"])
      && (transition && c == "new_status" ==> raw[c] == i.columns["status"])
      && (Moved(i, c) && !(transition && (c == "previous_status" || c == "new_status")) ==> raw[c] == i.columns[c])
  {
  }

  lemma {:induction false} UpdateIsDescribed(i: Instance, who: Context, lib: Library)
    requires Audited(Updated(i, who))
    ensures var row := RowFor(Updated(i, who), lib); row.Some? && Describes(row.value, Updated(i, who), lib)
  {
    var row := RowFor(Updated(i, who), lib).value;
    var raw := WithTransition(i, Changed(i));
    assert row.diff == Mask(raw, lib) && row.verb == UpdateVerb(i, raw);
    VerbIsRight(i);
    DiffIsRight(i, "previous_status");
    DiffIsRight(i, "new_status");
    forall c ensures c in row.diff <==> c in raw { }
    forall c | c in raw ensures ShownAs(c, raw[c], row.diff[c], lib) { MaskShows(raw, lib, c); }
    if Moved(i, "status") {
      PlainIsShown("previous_status", raw["previous_status"], row.diff["previous_status"], lib);
      PlainIsShown("new_status", raw["new_status"], row.diff["new_status"], lib);
    }
    assert DescribesUpdate(row, i, lib) by {
      forall c ensures c in row.diff <==>
          Moved(i, c) || (Moved(i, "status") && (c == "previous_status" || c == "new_status")) {
        DiffIsRight(i, c);
      }
      forall c | Moved(i, c) && !(Moved(i, "status") && (c == "previous_status" || c == "new_status"))
        ensures ShownAs(c, i.columns[c], row.diff[c], lib) { DiffIsRight(i, c); }
    }
  }

  /** Which changes get a row, and what it says. */
  lemma {:induction false} RowDescribes(c: Change, lib: Library)
    ensures RowFor(c, lib).Some? <==> Audited(c)
    ensures Audited(c) ==> Describes(RowFor(c, lib).value, c, lib)
  {
    if Audited(c) {
      match c
      case Created(i, pk, who) => CreateIsDescribed(i, pk, who, lib);
      case Updated(i, who) => UpdateIsDescribed(i, who, lib);
      case Deleted(i, who) => DeleteIsDescribed(i, who, lib);
    }
  }

  ghost predicate DescribeAll(rows: seq<Row>, changes: seq<Change>, lib: Library) {
    |rows| == |changes| && forall k | 0 <= k < |rows| :: Describes(rows[k], changes[k], lib)
  }

  lemma {:induction false} RowsDescribe(changes: seq<Change>, lib: Library)
    ensures DescribeAll(RowsFor(changes, lib), AuditedOnly(changes), lib)
  {
    if changes != [] {
      RowsDescribe(changes[..|changes| - 1], lib);
      RowDescribes(changes[|changes| - 1], lib);
    }
  }

  lemma {:induction false} EveryObjectIsAChange(s: Session, who: Context)
    ensures |CreatedIn(s.news, who)| == |s.news| && |DeletedIn(s.gone, who)| == |s.gone|
    ensures forall f | f in s.news :: Created(f.instance, f.pk, who) in CreatedIn(s.news, who)
    ensures forall i | i in s.gone :: Deleted(i, who) in DeletedIn(s.gone, who)
    ensures forall t | t in s.dirty && t.modified :: Updated(t.instance, who) in UpdatedIn(s.dirty, who)
    ensures forall c | c in UpdatedIn(s.dirty, who) ::
      exists t | t in s.dirty && t.modified :: c == Updated(t.instance, who)
    decreases |s.news| + |s.dirty| + |s.gone|
  {
    if s.news != [] {
      var front := s.news[..|s.news| - 1];
      assert s.news == front + [s.news[|s.news| - 1]];
      EveryObjectIsAChange(s.(news := front), who);
    } else if s.dirty != [] {
      var front := s.dirty[..|s.dirty| - 1];
      assert s.dirty == front + [s.dirty[|s.dirty| - 1]];
      EveryObjectIsAChange(s.(dirty := front), who);
    } else if s.gone != [] {
      var front := s.gone[..|s.gone| - 1];
      assert s.gone == front + [s.gone[|s.gone| - 1]];
      EveryObjectIsAChange(s.(gone := front), who);
    }
  }

  /** Work that is flushed and committed is committed, whole; and work rolled back is not. */
  lemma {:induction false} WorkIsCommitted(s: Session, who: Context, lib: Library)
    ensures var t := Next(Next(s, Flush(who), lib), Commit, lib);
      && t.changes
         == s.changes + (s.txChanges + (CreatedIn(s.news, who) + UpdatedIn(s.dirty, who) + DeletedIn(s.gone, who)))
      && t.news == [] && t.dirty == [] && t.gone == [] && t.txChanges == [] && t.txRows == [] && t.pending == []
    ensures var t := Next(s, Rollback, lib);
      && t.changes == s.changes && t.rows == s.rows && t.txChanges == [] && t.txRows == [] && !t.failed
      && t.news == [] && t.dirty == [] && t.gone == [] && t.pending == []
    ensures var t := Next(s, FlushFails(who, false), lib); t.failed && t.changes == s.changes && t.rows == s.rows
  {
  }

  /** Over every legal run the committed audit rows, in some order, are one for each committed change of an audited
      table, each saying what its change was; and no flush starts with a leftover stash. */
  lemma {:induction false} ExactlyOnce(events: seq<Event>, lib: Library)
    requires LegalRun(events, lib)
    ensures var s := Run(events, lib);
      && (exists rows :: multiset(rows) == multiset(s.rows) && DescribeAll(rows, AuditedOnly(s.changes), lib))
      && (!s.failed ==> s.pending == [])
  {
    RowsAreThoseOfTheChanges(events, lib);
    RowsDescribe(Run(events, lib).changes, lib);
    assert multiset(RowsFor(Run(events, lib).changes, lib)) == multiset(Run(events, lib).rows);
  }

  // ---------------------------------------------------------------- what no row ever says

  ghost predicate Scrubbed(r: Row) {
    && r.table != "audit_logs" && r.table != "alembic_version"
    && r.table != "report_downloads" && r.table != "audit_export_cursors"
    && (forall c | c in r.diff && HoldsCredential(c) :: r.diff[c] == Stars)
    && (forall c | c in r.diff && HoldsPersonal(c) :: r.diff[c].Null? || r.diff[c].Sha256?)
  }

  lemma {:induction false} MaskedIsScrubbed(r: Row, raw: Columns, lib: Library)
    requires IsAuditedTable(r.table) && r.diff == Mask(raw, lib)
    ensures Scrubbed(r)
  {
  }

  lemma {:induction false} BuiltIsScrubbed(verb: Verb, i: Instance, who: Context, lib: Library)
    ensures var row := Build(verb, i, who, lib); row.Some? ==> Scrubbed(row.value)
  {
    var row := Build(verb, i, who, lib);
    if row.Some? {
      MaskedIsScrubbed(row.value, if verb == Update then WithTransition(i, Changed(i)) else i.columns, lib);
    }
  }

  lemma {:induction false} RowsAreScrubbed(changes: seq<Change>, lib: Library)
    ensures forall r | r in RowsFor(changes, lib) :: Scrubbed(r)
  {
    if changes != [] {
      RowsAreScrubbed(changes[..|changes| - 1], lib);
      match changes[|changes| - 1]
      case Created(i, pk, who) =>
        BuiltIsScrubbed(Create, i.(identity := Some(pk), columns := i.columns["id" := Text(pk)]), who, lib);
      case Updated(i, who) => BuiltIsScrubbed(Update, i, who, lib);
      case Deleted(i, who) => BuiltIsScrubbed(Delete, i, who, lib);
    }
  }

  /** No committed row describes a skipped table or carries a credential or personal value in the clear. */
  lemma {:induction false} CommittedRowsAreScrubbed(events: seq<Event>, lib: Library, r: Row)
    requires LegalRun(events, lib) && r in Run(events, lib).rows
    ensures Scrubbed(r)
  {
    RowsAreThoseOfTheChanges(events, lib);
    var s := Run(events, lib);
    assert r in multiset(s.rows);
    assert r in RowsFor(s.changes, lib);
    RowsAreScrubbed(s.changes, lib);
  }

  /** The same session with `_after_soft_rollback` not registered. */
  function NextWithoutHook(s: Session, e: Event, lib: Library): Session {
    if e.Rollback? then Next(s, e, lib).(pending := s.pending) else Next(s, e, lib)
  }

  function RunWithoutHook(events: seq<Event>, lib: Library): Session {
    if events == [] then START
    else NextWithoutHook(RunWithoutHook(events[..|events| - 1], lib), events[|events| - 1], lib)
  }

  lemma {:induction false} WithoutHookOneMore(events: seq<Event>, e: Event, lib: Library)
    ensures RunWithoutHook(events + [e], lib) == NextWithoutHook(RunWithoutHook(events, lib), e, lib)
  {
    assert (events + [e])[..|events|] == events;
  }

  lemma {:induction false} StashOne(f: Fresh, who: Context, lib: Library)
    requires IsAuditedTable(f.instance.table)
    ensures Stash([f], who, lib) == [Stashed(Build(Create, f.instance, who, lib).value, f.pk)]
  {
    assert [f][..0] == [];
    assert Stash([f][..0], who, lib) == [];
  }

  /** Up to the rollback: the object is gone, its stashed row is not. */
  lemma {:induction false} RollbackLeavesTheStash(f: Fresh, who: Context, lib: Library)
    requires IsAuditedTable(f.instance.table)
    ensures RunWithoutHook([Add(f)] + [FlushFails(who, false)] + [Rollback], lib)
         == START.(pending := Stash([f], who, lib))
  {
    WithoutHookOneMore([], Add(f), lib);
    WithoutHookOneMore([Add(f)], FlushFails(who, false), lib);
    WithoutHookOneMore([Add(f)] + [FlushFails(who, false)], Rollback, lib);
    assert [] + [Add(f)] == [Add(f)] && START.news + [f] == [f];
    assert START.pending + Stash([f], who, lib) == Stash([f], who, lib);
  }

  /** Why the rollback hook is there. Without it, for any new audited object: its flush fails, the session is rolled
      back and goes on, and the next commit writes an audit row for an object that never came to be. */
  lemma {:induction false} WithoutTheHookAGhostIsAudited(f: Fresh, who: Context, later: Context, lib: Library)
    requires IsAuditedTable(f.instance.table)
    ensures var events := [Add(f)] + [FlushFails(who, false)] + [Rollback] + [Flush(later)] + [Commit];
      var s := RunWithoutHook(events, lib);
      s.changes == [] && s.rows == [Backfill(Stashed(Build(Create, f.instance, who, lib).value, f.pk))]
  {
    var front := [Add(f)] + [FlushFails(who, false)] + [Rollback];
    WithoutHookOneMore(front, Flush(later), lib);
    WithoutHookOneMore(front + [Flush(later)], Commit, lib);
    RollbackLeavesTheStash(f, who, lib);
    StashOne(f, who, lib);
    var s := RunWithoutHook(front, lib);
    assert s.pending + Stash([], later, lib) == s.pending;
    assert s.pending == [] + [s.pending[0]];
    BackfillOneMore([], s.pending[0]);
  }
}
