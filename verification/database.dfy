/** The store-URI handling and the seed import of src/database.rs.

    The import is a fold over the parsed seed recipes. It threads the
    committed contents of the store and opens one transaction per recipe;
    inside it, the transaction's working view starts from the committed
    contents. Whether an INSERT, a `begin`, a `rollback` or a `commit`
    succeeds is decided by a `Backend` oracle, because the schema and the
    SQL engine are not part of this model. */
module Database {
  import opened Outcomes
  import opened Errors
  import opened Text

  /** Built-in store URI used when neither the command line nor the
      `RECIPE_SERVER_DB_URI` environment variable names one. */
  const DefaultDbUri: string := "sqlite://db/recipe-server.db"
  const SqlitePrefix: string := "sqlite://"
  const DbSuffix: string := ".db"

  // ---------------------------------------------------------------------
  // Store URI

  /** `get_database_uri`: the explicit URI if given, else the value of the
      `RECIPE_SERVER_DB_URI` environment variable (`env`, `None` when it is
      unset or unreadable), else the built-in default. */
  function GetDatabaseUri(dbUri: Option<string>, env: Option<string>): (r: string)
    ensures dbUri.Some? ==> r == dbUri.value
    ensures dbUri.None? && env.Some? ==> r == env.value
    ensures dbUri.None? && env.None? ==> r == DefaultDbUri
  {
    match dbUri
    case Some(u) => u
    case None =>
      match env
      case Some(u) => u
      case None => DefaultDbUri
  }

  /** `dir` is the directory part of `path`: everything before the last `/`,
      or nothing when `path` has no `/`. */
  ghost predicate IsDirectoryPart(dir: string, path: string)
  {
    && dir <= path
    && ('/' in path ==> |dir| < |path| && path[|dir|] == '/' && '/' !in path[|dir| + 1..])
    && ('/' !in path ==> dir == "")
  }

  /** `extract_database_dir`: for a `sqlite://….db` URI, the directory the
      store file lives in; any other URI is rejected with `InvalidDbUri`
      carrying the URI. */
  function ExtractDatabaseDir(dbUri: string): (r: Result<string, RecipeServerError>)
    ensures r.Err? <==> !(StartsWith(dbUri, SqlitePrefix) && EndsWith(dbUri, DbSuffix))
    ensures r.Err? ==> r.error == InvalidDbUri(dbUri)
    ensures r.Ok? ==> IsDirectoryPart(r.value, dbUri[|SqlitePrefix|..])
  {
    if StartsWith(dbUri, SqlitePrefix) && EndsWith(dbUri, DbSuffix) then
      assert dbUri[6] == ':' && dbUri[..6] == "sqlite";
      var colon := Find(dbUri, ':');
      var start := colon.value + 3;
      assert start == |SqlitePrefix|;
      var path := dbUri[start..];
      match RFind(path, '/')
      case Some(end) => Ok(path[..end])
      case None => Ok("")
    else
      Err(InvalidDbUri(dbUri))
  }

  /** The default URI keeps its store under `db`. */
  lemma DefaultDatabaseDir(dbUri: string)
    requires dbUri == GetDatabaseUri(None, None)
    ensures ExtractDatabaseDir(dbUri) == Ok("db")
  {
    DefaultDbUriPath(dbUri);
    SingleSlashDir(dbUri, 2);
  }

  /** The default URI is a valid one whose path has a single `/`, after `db`. */
  lemma DefaultDbUriPath(dbUri: string)
    requires dbUri == GetDatabaseUri(None, None)
    ensures StartsWith(dbUri, SqlitePrefix) && EndsWith(dbUri, DbSuffix)
    ensures var path := dbUri[|SqlitePrefix|..];
      && 2 < |path| && path[2] == '/' && path[..2] == "db"
      && forall i :: 0 <= i < |path| && i != 2 ==> path[i] != '/'
  {
    assert dbUri == SqlitePrefix + "db/recipe-server.db";
  }

  /** A valid URI whose path has a single `/`, at `k`, keeps its store in
      the part of the path before it. */
  lemma SingleSlashDir(dbUri: string, k: nat)
    requires StartsWith(dbUri, SqlitePrefix) && EndsWith(dbUri, DbSuffix)
    requires var path := dbUri[|SqlitePrefix|..];
      k < |path| && path[k] == '/' && forall i :: 0 <= i < |path| && i != k ==> path[i] != '/'
    ensures ExtractDatabaseDir(dbUri) == Ok(dbUri[|SqlitePrefix|..][..k])
  {
  }

  // ---------------------------------------------------------------------
  // Seed recipes and the three tables

  /** A recipe as read from the seed file. The preparation is one text. */
  datatype Recipe = Recipe(
    id: int,
    name: string,
    ingredients: seq<string>,
    preparation: string,
    source: string,
    tags: seq<string>)

  datatype RecipeRow = RecipeRow(id: int, name: string, preparation: string, source: string)
  datatype IngredientRow = IngredientRow(recipeId: int, ingredient: string)
  datatype TagRow = TagRow(recipeId: int, tag: string)

  /** Rows of the `recipes`, `ingredients` and `tags` tables. */
  datatype Store = Store(recipes: seq<RecipeRow>, ingredients: seq<IngredientRow>, tags: seq<TagRow>)

  /** One INSERT statement of the import. */
  datatype Insert =
    | InsertRecipe(recipe: RecipeRow)
    | InsertIngredient(ingredient: IngredientRow)
    | InsertTag(tag: TagRow)

  /** A successful INSERT adds its row to its table. */
  function Apply(store: Store, ins: Insert): Store
  {
    match ins
    case InsertRecipe(row) => store.(recipes := store.recipes + [row])
    case InsertIngredient(row) => store.(ingredients := store.ingredients + [row])
    case InsertTag(row) => store.(tags := store.tags + [row])
  }

  /** The store after a run of successful INSERTs, in order. */
  function ApplyAll(store: Store, inserts: seq<Insert>): Store
    decreases |inserts|
  {
    if |inserts| == 0 then store else ApplyAll(Apply(store, inserts[0]), inserts[1..])
  }

  lemma {:induction false} ApplyAllAppend(store: Store, a: seq<Insert>, b: seq<Insert>)
    ensures ApplyAll(store, a + b) == ApplyAll(ApplyAll(store, a), b)
    decreases |a|
  {
    if |a| == 0 {
      assert a + b == b;
    } else {
      assert (a + b)[1..] == a[1..] + b;
      ApplyAllAppend(Apply(store, a[0]), a[1..], b);
    }
  }

  /** The INSERTs the importer issues for one recipe: its primary row, then
      one row per ingredient in order, then one row per tag in order. */
  function Statements(r: Recipe): (stmts: seq<Insert>)
    ensures |stmts| == 1 + |r.ingredients| + |r.tags|
    ensures stmts[0] == InsertRecipe(RecipeRow(r.id, r.name, r.preparation, r.source))
    ensures forall i :: 0 <= i < |r.ingredients| ==>
              stmts[1 + i] == InsertIngredient(IngredientRow(r.id, r.ingredients[i]))
    ensures forall j :: 0 <= j < |r.tags| ==>
              stmts[1 + |r.ingredients| + j] == InsertTag(TagRow(r.id, r.tags[j]))
  {
    [InsertRecipe(RecipeRow(r.id, r.name, r.preparation, r.source))]
    + seq(|r.ingredients|, i requires 0 <= i < |r.ingredients| =>
            InsertIngredient(IngredientRow(r.id, r.ingredients[i])))
    + seq(|r.tags|, j requires 0 <= j < |r.tags| => InsertTag(TagRow(r.id, r.tags[j])))
  }

  // ---------------------------------------------------------------------
  // The per-recipe transaction

  /** What the database does with the import's requests. `begin`, `rollback`
      and `commit` are indexed by the recipe's position in the seed;
      `execute` decides an INSERT against the transaction's current view. */
  datatype Backend = Backend(
    begin: nat -> Outcome<string>,
    execute: (Store, Insert) -> bool,
    rollback: nat -> Outcome<string>,
    commit: nat -> Outcome<string>)

  /** The statements of one transaction that were sent, the view they left,
      and whether the last one failed. */
  datatype TxRun = TxRun(view: Store, attempted: seq<Insert>, failed: bool)

  /** Every statement of `attempted` succeeded on the view its predecessors
      left, except the last one when `failed`. */
  predicate SucceededBefore(b: Backend, view: Store, attempted: seq<Insert>, failed: bool)
  {
    forall i :: 0 <= i < |attempted| && (i < |attempted| - 1 || !failed) ==>
      b.execute(ApplyAll(view, attempted[..i]), attempted[i])
  }

  /** Sends `stmts` in order inside a transaction, stopping at the first
      failing one. */
  function RunStatements(b: Backend, view: Store, stmts: seq<Insert>): (t: TxRun)
    ensures t.attempted <= stmts
    ensures !t.failed ==> t.attempted == stmts && t.view == ApplyAll(view, stmts)
    ensures t.failed ==> |t.attempted| > 0
    ensures t.failed ==> t.view == ApplyAll(view, t.attempted[..|t.attempted| - 1])
    ensures t.failed ==> !b.execute(t.view, t.attempted[|t.attempted| - 1])
    ensures SucceededBefore(b, view, t.attempted, t.failed)
    decreases |stmts|
  {
    if |stmts| == 0 then TxRun(view, [], false)
    else if !b.execute(view, stmts[0]) then
      TxRun(view, [stmts[0]], true)
    else
      var rest := RunStatements(b, Apply(view, stmts[0]), stmts[1..]);
      RunStatementsStep(b, view, stmts, rest);
      TxRun(rest.view, [stmts[0]] + rest.attempted, rest.failed)
  }

  lemma RunStatementsStep(b: Backend, view: Store, stmts: seq<Insert>, rest: TxRun)
    requires |stmts| > 0 && b.execute(view, stmts[0])
    requires rest.attempted <= stmts[1..]
    requires !rest.failed ==> rest.attempted == stmts[1..] && rest.view == ApplyAll(Apply(view, stmts[0]), stmts[1..])
    requires rest.failed ==> |rest.attempted| > 0
    requires rest.failed ==> rest.view == ApplyAll(Apply(view, stmts[0]), rest.attempted[..|rest.attempted| - 1])
    requires forall i :: 0 <= i < |rest.attempted| && (i < |rest.attempted| - 1 || !rest.failed) ==>
               b.execute(ApplyAll(Apply(view, stmts[0]), rest.attempted[..i]), rest.attempted[i])
    ensures var all := [stmts[0]] + rest.attempted;
      && all <= stmts
      && (!rest.failed ==> all == stmts && rest.view == ApplyAll(view, stmts))
      && (rest.failed ==> rest.view == ApplyAll(view, all[..|all| - 1]))
      && (forall i :: 0 <= i < |all| && (i < |all| - 1 || !rest.failed) ==>
            b.execute(ApplyAll(view, all[..i]), all[i]))
  {
    var all := [stmts[0]] + rest.attempted;
    assert stmts == [stmts[0]] + stmts[1..];
    forall i | 0 <= i < |all| && (i < |all| - 1 || !rest.failed)
      ensures b.execute(ApplyAll(view, all[..i]), all[i])
    {
      if i > 0 {
        assert all[..i][1..] == rest.attempted[..i - 1];
      }
    }
    if rest.failed {
      assert all[..|all| - 1][1..] == rest.attempted[..|rest.attempted| - 1];
    }
  }

  /** How a recipe's transaction ended. */
  datatype Disposal =
    | BeginFailed(beginError: string)       // `db.begin()` failed
    | RolledBack                            // an INSERT failed; rollback succeeded
    | RollbackFailed(rollbackError: string) // an INSERT failed; rollback failed
    | Dropped                               // all INSERTs succeeded; dropped without commit
    | Committed                             // all INSERTs succeeded; committed
    | CommitFailed(commitError: string)     // all INSERTs succeeded; commit failed

  /** Dispositions that end the whole import with an error. */
  predicate Aborts(d: Disposal)
  {
    d.BeginFailed? || d.RollbackFailed? || d.CommitFailed?
  }

  /** The database error behind an aborting disposition. */
  function AbortError(d: Disposal): string
    requires Aborts(d)
  {
    match d
    case BeginFailed(e) => e
    case RollbackFailed(e) => e
    case CommitFailed(e) => e
  }

  /** What happened to the `index`-th seed recipe. */
  datatype Attempt = Attempt(index: nat, attempted: seq<Insert>, insertFailed: bool, disposal: Disposal)

  /** The per-recipe protocol, as seen from its outcome: the statements
      sent are a prefix of the recipe's statements; a failed INSERT is
      answered by a rollback and is the last statement sent; otherwise every
      statement was sent and the transaction was dropped or committed as
      `ending` prescribes. */
  predicate Consistent(a: Attempt, r: Recipe, ending: Ending)
  {
    FollowsPlan(a, Statements(r), ending)
  }

  /** `Consistent` for a transaction whose statements are `plan`. */
  predicate FollowsPlan(a: Attempt, plan: seq<Insert>, ending: Ending)
  {
    && a.attempted <= plan
    && (a.insertFailed <==> a.disposal.RolledBack? || a.disposal.RollbackFailed?)
    && (a.disposal.BeginFailed? <==> a.attempted == [])
    && (!a.insertFailed && !a.disposal.BeginFailed? ==> a.attempted == plan)
    && (a.disposal.Dropped? ==> ending == DropUncommitted)
    && (a.disposal.Committed? || a.disposal.CommitFailed? ==> ending == CommitOnSuccess)
  }

  /** How a transaction whose INSERTs all succeeded is finished: as written,
      it is dropped without `commit` (sqlx then rolls it back); the corrected
      importer commits it. */
  datatype Ending = DropUncommitted | CommitOnSuccess

  /** The committed store after one recipe, what happened to it, and the
      error that ends the import, if any. */
  datatype Step = Step(store: Store, attempt: Attempt, abort: Option<RecipeServerError>)

  /** One iteration of the import loop for the `k`-th seed recipe `r`. */
  function ImportRecipe(b: Backend, ending: Ending, store: Store, k: nat, r: Recipe): (s: Step)
    ensures s.attempt.index == k
    ensures Consistent(s.attempt, r, ending)
    // `begin` decides whether anything is sent
    ensures s.attempt.disposal.BeginFailed? <==> b.begin(k).Fail?
    ensures b.begin(k).Fail? ==> s.attempt.disposal == BeginFailed(b.begin(k).error)
    // every statement sent before the last succeeded
    ensures SucceededBefore(b, store, s.attempt.attempted, s.attempt.insertFailed)
    // a failed INSERT is answered by the rollback, whose outcome decides
    // whether the import goes on
    ensures s.attempt.insertFailed ==>
              s.attempt.disposal == (if b.rollback(k).Pass? then RolledBack else RollbackFailed(b.rollback(k).error))
    // a transaction whose INSERTs all succeeded is dropped, or committed
    ensures s.attempt.disposal.Dropped? <==>
              ending == DropUncommitted && b.begin(k).Pass? && !s.attempt.insertFailed
    ensures s.attempt.disposal.Committed? <==>
              ending == CommitOnSuccess && b.begin(k).Pass? && !s.attempt.insertFailed && b.commit(k).Pass?
    ensures s.attempt.disposal.CommitFailed? ==> s.attempt.disposal == CommitFailed(b.commit(k).error)
    ensures s.abort.Some? <==> Aborts(s.attempt.disposal)
    ensures s.abort.Some? ==> s.abort.value == SqlxError(AbortError(s.attempt.disposal))
    ensures s.store == (if s.attempt.disposal.Committed? then ApplyAll(store, Statements(r)) else store)
    // inside the transaction the statements go out as `RunStatements` sends
    // them, and the last one sent failed exactly when an INSERT failed
    ensures b.begin(k).Pass? ==>
              var t := RunStatements(b, store, Statements(r));
              s.attempt.attempted == t.attempted && s.attempt.insertFailed == t.failed
    ensures s.attempt.insertFailed ==> !b.execute(ApplyAll(store, s.attempt.attempted[..|s.attempt.attempted| - 1]),
                                                 s.attempt.attempted[|s.attempt.attempted| - 1])
  {
    match b.begin(k)
    case Fail(e) => Step(store, Attempt(k, [], false, BeginFailed(e)), Some(SqlxError(e)))
    case Pass => FinishTransaction(b, ending, store, k, Statements(r), RunStatements(b, store, Statements(r)))
  }

  /** The end of the `k`-th recipe's transaction once `t`, the run of its
      statements `plan`, has been sent: rollback after a failed INSERT,
      otherwise drop or commit. Its contract repeats the `begin`-passed half
      of `ImportRecipe`'s, over `plan` instead of `Statements(r)`, so that
      proving it does not unfold the statement list and stays cheap for the
      solver. */
  function FinishTransaction(b: Backend, ending: Ending, store: Store, k: nat, plan: seq<Insert>, t: TxRun): (s: Step)
    requires |plan| > 0 && t.attempted <= plan
    requires !t.failed ==> t.attempted == plan && t.view == ApplyAll(store, plan)
    requires t.failed ==> |t.attempted| > 0
    requires t.failed ==> !b.execute(ApplyAll(store, t.attempted[..|t.attempted| - 1]), t.attempted[|t.attempted| - 1])
    requires SucceededBefore(b, store, t.attempted, t.failed)
    ensures s.attempt.index == k
    ensures FollowsPlan(s.attempt, plan, ending)
    ensures !s.attempt.disposal.BeginFailed?
    ensures SucceededBefore(b, store, s.attempt.attempted, s.attempt.insertFailed)
    ensures s.attempt.insertFailed ==>
              s.attempt.disposal == (if b.rollback(k).Pass? then RolledBack else RollbackFailed(b.rollback(k).error))
    ensures s.attempt.disposal.Dropped? <==> ending == DropUncommitted && !s.attempt.insertFailed
    ensures s.attempt.disposal.Committed? <==> ending == CommitOnSuccess && !s.attempt.insertFailed && b.commit(k).Pass?
    ensures s.attempt.disposal.CommitFailed? ==> s.attempt.disposal == CommitFailed(b.commit(k).error)
    ensures s.abort.Some? <==> Aborts(s.attempt.disposal)
    ensures s.abort.Some? ==> s.abort.value == SqlxError(AbortError(s.attempt.disposal))
    ensures s.store == (if s.attempt.disposal.Committed? then ApplyAll(store, plan) else store)
    ensures s.attempt.attempted == t.attempted && s.attempt.insertFailed == t.failed
    ensures s.attempt.insertFailed ==> !b.execute(ApplyAll(store, s.attempt.attempted[..|s.attempt.attempted| - 1]),
                                                 s.attempt.attempted[|s.attempt.attempted| - 1])
  {
    if t.failed then
      match b.rollback(k)
      case Pass => Step(store, Attempt(k, t.attempted, true, RolledBack), None)
      case Fail(e) => Step(store, Attempt(k, t.attempted, true, RollbackFailed(e)), Some(SqlxError(e)))
    else
      match ending
      case DropUncommitted => Step(store, Attempt(k, t.attempted, false, Dropped), None)
      case CommitOnSuccess =>
        match b.commit(k)
        case Pass => Step(t.view, Attempt(k, t.attempted, false, Committed), None)
        case Fail(e) => Step(store, Attempt(k, t.attempted, false, CommitFailed(e)), Some(SqlxError(e)))
  }

  // ---------------------------------------------------------------------
  // The import loop

  /** The committed store after the import, what happened to each recipe
      that was reached, and the import's result. */
  datatype ImportRun = ImportRun(store: Store, attempts: seq<Attempt>, result: Outcome<RecipeServerError>)

  /** The statements of the recipes whose transaction was committed, in
      seed order. */
  function CommittedStatements(seed: seq<Recipe>, attempts: seq<Attempt>): seq<Insert>
    requires |attempts| <= |seed|
  {
    if |attempts| == 0 then []
    else
      (if attempts[0].disposal.Committed? then Statements(seed[0]) else [])
      + CommittedStatements(seed[1..], attempts[1..])
  }

  /** `attempts` are what `ImportRecipe` makes of the recipes of `seed` in
      turn, from seed position `k` on, each on the store its predecessors
      left. */
  predicate Replays(b: Backend, ending: Ending, store: Store, seed: seq<Recipe>, k: nat, attempts: seq<Attempt>)
    requires |attempts| <= |seed|
    decreases |attempts|
  {
    |attempts| == 0 ||
    (var step := ImportRecipe(b, ending, store, k, seed[0]);
     attempts[0] == step.attempt && Replays(b, ending, step.store, seed[1..], k + 1, attempts[1..]))
  }

  /** What the loop promises about `run`, started at seed position `k` on
      `store`: each recipe reached is handled by the per-recipe protocol on
      the store its predecessors left, in seed order; the loop goes on
      until a recipe aborts it; the store gains exactly the rows of the
      committed recipes. */
  predicate LoopRun(b: Backend, ending: Ending, store: Store, seed: seq<Recipe>, k: nat, run: ImportRun)
  {
    && |run.attempts| <= |seed|
    && (forall i :: 0 <= i < |run.attempts| ==>
          run.attempts[i].index == k + i && Consistent(run.attempts[i], seed[i], ending))
    && (run.result.Pass? ==> |run.attempts| == |seed|)
    && (run.result.Fail? ==> |run.attempts| > 0 && Aborts(run.attempts[|run.attempts| - 1].disposal))
    && (run.result.Fail? ==>
          run.result.error == SqlxError(AbortError(run.attempts[|run.attempts| - 1].disposal)))
    && (forall i :: 0 <= i < |run.attempts| - 1 ==> !Aborts(run.attempts[i].disposal))
    && (run.result.Pass? ==> forall i :: 0 <= i < |run.attempts| ==> !Aborts(run.attempts[i].disposal))
    && run.store == ApplyAll(store, CommittedStatements(seed, run.attempts))
    && Replays(b, ending, store, seed, k, run.attempts)
    && (forall i :: 0 <= i < |run.attempts| && !Aborts(run.attempts[i].disposal) && i + 1 < |seed| ==>
          i + 1 < |run.attempts|)
  }

  /** The `for recipe in recipes` loop, from seed position `k` on. */
  function ImportSeed(b: Backend, ending: Ending, store: Store, seed: seq<Recipe>, k: nat): (run: ImportRun)
    ensures LoopRun(b, ending, store, seed, k, run)
    decreases |seed|
  {
    if |seed| == 0 then ImportRun(store, [], Pass)
    else
      var step := ImportRecipe(b, ending, store, k, seed[0]);
      match step.abort
      case Some(e) =>
        var run := ImportRun(step.store, [step.attempt], Fail(e));
        ImportSeedAbort(b, ending, store, seed, k, step, run);
        run
      case None =>
        var rest := ImportSeed(b, ending, step.store, seed[1..], k + 1);
        var run := ImportRun(rest.store, [step.attempt] + rest.attempts, rest.result);
        ImportSeedStep(b, ending, store, seed, k, step, rest, run);
        run
  }

  /** The last step of `ImportSeed` when a recipe ends the import. */
  lemma ImportSeedAbort(b: Backend, ending: Ending, store: Store, seed: seq<Recipe>, k: nat, step: Step, run: ImportRun)
    requires |seed| > 0 && step == ImportRecipe(b, ending, store, k, seed[0]) && step.abort.Some?
    requires run == ImportRun(step.store, [step.attempt], Fail(step.abort.value))
    ensures LoopRun(b, ending, store, seed, k, run)
  {
    assert run.attempts[1..] == [];
    assert CommittedStatements(seed, run.attempts) == [];
  }

  /** One step of `ImportSeed`: a recipe that did not end the import,
      followed by the import of the remaining recipes. */
  lemma ImportSeedStep(b: Backend, ending: Ending, store: Store, seed: seq<Recipe>, k: nat,
                       step: Step, rest: ImportRun, run: ImportRun)
    requires |seed| > 0 && step == ImportRecipe(b, ending, store, k, seed[0]) && step.abort.None?
    requires LoopRun(b, ending, step.store, seed[1..], k + 1, rest)
    requires run == ImportRun(rest.store, [step.attempt] + rest.attempts, rest.result)
    ensures LoopRun(b, ending, store, seed, k, run)
  {
    assert run.attempts[1..] == rest.attempts;
    LoopRunCons(ending, store, seed, k, step, rest, run);
  }

  /** The bookkeeping half of `ImportSeedStep`: indices, dispositions and
      the committed rows of a recipe that did not abort, put in front of
      the rest of the loop. The clauses of `LoopRun` are spelled out here,
      without `Replays`, so that this proof does not see `ImportRecipe` and
      stays cheap for the solver. */
  lemma LoopRunCons(ending: Ending, store: Store, seed: seq<Recipe>, k: nat, step: Step, rest: ImportRun, run: ImportRun)
    requires |seed| > 0 && |rest.attempts| <= |seed| - 1
    requires step.attempt.index == k && Consistent(step.attempt, seed[0], ending) && !Aborts(step.attempt.disposal)
    requires step.store == (if step.attempt.disposal.Committed? then ApplyAll(store, Statements(seed[0])) else store)
    requires forall i :: 0 <= i < |rest.attempts| ==>
               rest.attempts[i].index == k + 1 + i && Consistent(rest.attempts[i], seed[1..][i], ending)
    requires rest.result.Pass? ==> |rest.attempts| == |seed| - 1
    requires rest.result.Fail? ==> |rest.attempts| > 0 && Aborts(rest.attempts[|rest.attempts| - 1].disposal)
    requires rest.result.Fail? ==>
               rest.result.error == SqlxError(AbortError(rest.attempts[|rest.attempts| - 1].disposal))
    requires forall i :: 0 <= i < |rest.attempts| - 1 ==> !Aborts(rest.attempts[i].disposal)
    requires rest.result.Pass? ==> forall i :: 0 <= i < |rest.attempts| ==> !Aborts(rest.attempts[i].disposal)
    requires rest.store == ApplyAll(step.store, CommittedStatements(seed[1..], rest.attempts))
    requires forall i :: 0 <= i < |rest.attempts| && !Aborts(rest.attempts[i].disposal) && i + 1 < |seed| - 1 ==>
               i + 1 < |rest.attempts|
    requires run == ImportRun(rest.store, [step.attempt] + rest.attempts, rest.result)
    ensures forall i :: 0 <= i < |run.attempts| ==>
              run.attempts[i].index == k + i && Consistent(run.attempts[i], seed[i], ending)
    ensures run.result.Pass? ==> |run.attempts| == |seed|
    ensures run.result.Fail? ==> |run.attempts| > 0 && Aborts(run.attempts[|run.attempts| - 1].disposal)
    ensures run.result.Fail? ==>
              run.result.error == SqlxError(AbortError(run.attempts[|run.attempts| - 1].disposal))
    ensures forall i :: 0 <= i < |run.attempts| - 1 ==> !Aborts(run.attempts[i].disposal)
    ensures run.result.Pass? ==> forall i :: 0 <= i < |run.attempts| ==> !Aborts(run.attempts[i].disposal)
    ensures run.store == ApplyAll(store, CommittedStatements(seed, run.attempts))
    ensures forall i :: 0 <= i < |run.attempts| && !Aborts(run.attempts[i].disposal) && i + 1 < |seed| ==>
              i + 1 < |run.attempts|
  {
    var attempts := run.attempts;
    assert attempts[1..] == rest.attempts;
    forall i | 0 < i < |attempts|
      ensures attempts[i] == rest.attempts[i - 1] && seed[i] == seed[1..][i - 1]
    {
    }
    ApplyAllAppend(store, if step.attempt.disposal.Committed? then Statements(seed[0]) else [],
                   CommittedStatements(seed[1..], rest.attempts));
  }

  // ---------------------------------------------------------------------
  // init_database

  /** The I/O of `init_database` before the import: whether the store file
      exists (or the error asking it), the creation of the store under a
      directory, and connecting plus running the migrations. */
  datatype Host = Host(
    databaseExists: Result<bool, RecipeServerError>,
    createDatabase: string -> Outcome<RecipeServerError>,
    connectAndMigrate: Outcome<RecipeServerError>)

  /** The store file exists, or it did not and was created in the
      directory its URI names. */
  predicate StoreReady(host: Host, dbUri: string)
  {
    || host.databaseExists == Ok(true)
    || (&& host.databaseExists == Ok(false)
        && ExtractDatabaseDir(dbUri).Ok?
        && host.createDatabase(ExtractDatabaseDir(dbUri).value).Pass?)
  }

  /** The work of `init_database` before its import loop, in the source's
      order: ask whether the store exists; if not, take its directory from
      the URI and create it; connect and migrate; then take the parsed seed.
      The result is the seed to import (`None` when no seed file was named)
      or the first error met. */
  function Prepare(initFrom: Option<Result<seq<Recipe>, RecipeServerError>>, dbUri: string, host: Host)
    : (r: Result<Option<seq<Recipe>>, RecipeServerError>)
    ensures host.databaseExists.Err? ==> r == Err(host.databaseExists.error)
    ensures host.databaseExists == Ok(false) && ExtractDatabaseDir(dbUri).Err? ==> r == Err(InvalidDbUri(dbUri))
    ensures host.databaseExists == Ok(false) && ExtractDatabaseDir(dbUri).Ok?
            && host.createDatabase(ExtractDatabaseDir(dbUri).value).Fail? ==>
              r == Err(host.createDatabase(ExtractDatabaseDir(dbUri).value).error)
    ensures StoreReady(host, dbUri) && host.connectAndMigrate.Fail? ==> r == Err(host.connectAndMigrate.error)
    ensures StoreReady(host, dbUri) && host.connectAndMigrate.Pass? && initFrom.None? ==> r == Ok(None)
    ensures StoreReady(host, dbUri) && host.connectAndMigrate.Pass? && initFrom.Some? && initFrom.value.Err? ==>
              r == Err(initFrom.value.error)
    ensures StoreReady(host, dbUri) && host.connectAndMigrate.Pass? && initFrom.Some? && initFrom.value.Ok? ==>
              r == Ok(Some(initFrom.value.value))
    ensures r.Ok? ==> StoreReady(host, dbUri) && host.connectAndMigrate.Pass?
  {
    match host.databaseExists
    case Err(e) => Err(e)
    case Ok(present) =>
      var created :=
        if present then Pass
        else match ExtractDatabaseDir(dbUri)
          case Err(e) => Fail(e)
          case Ok(dir) => host.createDatabase(dir);
      match created
      case Fail(e) => Err(e)
      case Pass =>
        match host.connectAndMigrate
        case Fail(e) => Err(e)
        case Pass =>
          match initFrom
          case None => Ok(None)
          case Some(Err(e)) => Err(e)
          case Some(Ok(seed)) => Ok(Some(seed))
  }

  /** `init_database` with a given way of ending successful transactions.
      `initFrom` is `None` when no seed file was named, otherwise the result
      of reading and parsing it. `store` is the committed content of the
      store once it is connected and migrated. */
  function Init(initFrom: Option<Result<seq<Recipe>, RecipeServerError>>, dbUri: string,
                host: Host, b: Backend, ending: Ending, store: Store): (run: ImportRun)
    ensures Prepare(initFrom, dbUri, host).Err? ==>
              run == ImportRun(store, [], Fail(Prepare(initFrom, dbUri, host).error))
    ensures Prepare(initFrom, dbUri, host) == Ok(None) ==> run == ImportRun(store, [], Pass)
    ensures Prepare(initFrom, dbUri, host).Ok? && Prepare(initFrom, dbUri, host).value.Some? ==>
              run == ImportSeed(b, ending, store, Prepare(initFrom, dbUri, host).value.value, 0)
  {
    match Prepare(initFrom, dbUri, host)
    case Err(e) => ImportRun(store, [], Fail(e))
    case Ok(None) => ImportRun(store, [], Pass)
    case Ok(Some(seed)) => ImportSeed(b, ending, store, seed, 0)
  }

  /** `init_database` as written: a transaction whose INSERTs all succeed is
      dropped without being committed. */
  function InitDatabase(initFrom: Option<Result<seq<Recipe>, RecipeServerError>>, dbUri: string,
                        host: Host, b: Backend, store: Store): (run: ImportRun)
    ensures run.store == store
    ensures initFrom.None? ==> run.attempts == []
    ensures forall i :: 0 <= i < |run.attempts| ==> !run.attempts[i].disposal.Committed?
    ensures host.databaseExists == Ok(false) && ExtractDatabaseDir(dbUri).Err? ==>
              run.result == Fail(InvalidDbUri(dbUri)) && run.attempts == []
    // an error before the loop is returned, and nothing is imported
    ensures Prepare(initFrom, dbUri, host).Err? ==>
              run.result == Fail(Prepare(initFrom, dbUri, host).error) && run.attempts == []
    // a ready store without a seed file gives Ok(()) at once
    ensures StoreReady(host, dbUri) && host.connectAndMigrate.Pass? && initFrom.None? ==>
              run.result == Pass && run.attempts == []
    // a ready store with a parsed seed runs the import loop over it
    ensures StoreReady(host, dbUri) && host.connectAndMigrate.Pass? && initFrom.Some? && initFrom.value.Ok? ==>
              run == ImportSeed(b, DropUncommitted, store, initFrom.value.value, 0)
  {
    var run := Init(initFrom, dbUri, host, b, DropUncommitted, store);
    if initFrom.Some? && initFrom.value.Ok? then
      NothingCommittedWhenDropping(b, store, initFrom.value.value, 0);
      run
    else
      run
  }

  /** `init_database` with a commit after each recipe's last INSERT. */
  function InitDatabaseCommitting(initFrom: Option<Result<seq<Recipe>, RecipeServerError>>, dbUri: string,
                                  host: Host, b: Backend, store: Store): (run: ImportRun)
    ensures initFrom.None? ==> run.attempts == [] && run.store == store
    ensures initFrom.Some? && initFrom.value.Ok? ==> |run.attempts| <= |initFrom.value.value|
    ensures initFrom.Some? && initFrom.value.Ok? ==>
              run.store == ApplyAll(store, CommittedStatements(initFrom.value.value, run.attempts))
    ensures Prepare(initFrom, dbUri, host).Err? ==>
              run == ImportRun(store, [], Fail(Prepare(initFrom, dbUri, host).error))
    ensures StoreReady(host, dbUri) && host.connectAndMigrate.Pass? && initFrom.None? ==>
              run == ImportRun(store, [], Pass)
    ensures StoreReady(host, dbUri) && host.connectAndMigrate.Pass? && initFrom.Some? && initFrom.value.Ok? ==>
              run == ImportSeed(b, CommitOnSuccess, store, initFrom.value.value, 0)
    // rows already stored stay, and every row of a committed recipe is stored
    ensures forall ins :: Stored(store, ins) ==> Stored(run.store, ins)
    ensures initFrom.Some? && initFrom.value.Ok? ==>
              forall i, ins ::
                0 <= i < |run.attempts| && run.attempts[i].disposal.Committed? && ins in Statements(initFrom.value.value[i])
                ==> Stored(run.store, ins)
  {
    var run := Init(initFrom, dbUri, host, b, CommitOnSuccess, store);
    if initFrom.Some? && initFrom.value.Ok? then
      CommittedRowsStored(b, store, initFrom.value.value, 0);
      run
    else
      run
  }

  lemma {:induction false} NothingCommittedWhenDropping(b: Backend, store: Store, seed: seq<Recipe>, k: nat)
    ensures var run := ImportSeed(b, DropUncommitted, store, seed, k);
      && run.store == store
      && forall i :: 0 <= i < |run.attempts| ==> !run.attempts[i].disposal.Committed?
    decreases |seed|
  {
    if |seed| > 0 {
      var step := ImportRecipe(b, DropUncommitted, store, k, seed[0]);
      if step.abort.None? {
        NothingCommittedWhenDropping(b, step.store, seed[1..], k + 1);
      }
    }
  }

  // ---------------------------------------------------------------------
  // Rows in the store

  /** The row an INSERT adds is in its table. */
  predicate Stored(store: Store, ins: Insert)
  {
    match ins
    case InsertRecipe(row) => row in store.recipes
    case InsertIngredient(row) => row in store.ingredients
    case InsertTag(row) => row in store.tags
  }

  /** Successful INSERTs keep the rows already there and add their own. */
  lemma {:induction false} ApplyAllStores(store: Store, inserts: seq<Insert>)
    ensures forall ins :: Stored(store, ins) ==> Stored(ApplyAll(store, inserts), ins)
    ensures forall ins :: ins in inserts ==> Stored(ApplyAll(store, inserts), ins)
    decreases |inserts|
  {
    if |inserts| > 0 {
      var next := Apply(store, inserts[0]);
      assert forall ins :: Stored(store, ins) ==> Stored(next, ins);
      assert Stored(next, inserts[0]);
      ApplyAllStores(next, inserts[1..]);
      assert forall ins :: ins in inserts ==> ins == inserts[0] || ins in inserts[1..];
    }
  }

  /** A committed recipe's statements are among the committed statements. */
  lemma {:induction false} CommittedStatementsContain(seed: seq<Recipe>, attempts: seq<Attempt>, i: nat)
    requires |attempts| <= |seed| && i < |attempts| && attempts[i].disposal.Committed?
    ensures forall ins :: ins in Statements(seed[i]) ==> ins in CommittedStatements(seed, attempts)
    decreases i
  {
    if i > 0 {
      CommittedStatementsContain(seed[1..], attempts[1..], i - 1);
    }
  }

  /** With the commit, the import keeps every row the store had and stores
      every row of every committed recipe. */
  lemma CommittedRowsStored(b: Backend, store: Store, seed: seq<Recipe>, k: nat)
    ensures var run := ImportSeed(b, CommitOnSuccess, store, seed, k);
      && (forall ins :: Stored(store, ins) ==> Stored(run.store, ins))
      && (forall i, ins ::
            0 <= i < |run.attempts| && run.attempts[i].disposal.Committed? && ins in Statements(seed[i])
            ==> Stored(run.store, ins))
  {
    var run := ImportSeed(b, CommitOnSuccess, store, seed, k);
    var committed := CommittedStatements(seed, run.attempts);
    ApplyAllStores(store, committed);
    forall i | 0 <= i < |run.attempts| && run.attempts[i].disposal.Committed?
      ensures forall ins :: ins in Statements(seed[i]) ==> ins in committed
    {
      CommittedStatementsContain(seed, run.attempts, i);
    }
  }

  // ---------------------------------------------------------------------
  // The missing commit

  /** A backend on which every request succeeds. */
  function Cooperative(): Backend
  {
    Backend(k => Pass, (view, ins) => true, k => Pass, k => Pass)
  }

  /** A host whose store already exists and connects and migrates cleanly. */
  function ReadyHost(): Host
  {
    Host(Ok(true), dir => Pass, Pass)
  }

  /** On a backend where everything succeeds, every recipe is attempted,
      all its statements are sent, and its transaction ends as `ending`
      says: dropped, or committed. */
  lemma {:induction false} CooperativeImport(ending: Ending, store: Store, seed: seq<Recipe>, k: nat)
    ensures var run := ImportSeed(Cooperative(), ending, store, seed, k);
      && run.result == Pass
      && |run.attempts| == |seed|
      && forall i :: 0 <= i < |seed| ==>
           run.attempts[i] == Attempt(k + i, Statements(seed[i]), false,
                                      if ending == CommitOnSuccess then Committed else Dropped)
    decreases |seed|
  {
    if |seed| > 0 {
      var b := Cooperative();
      var step := ImportRecipe(b, ending, store, k, seed[0]);
      CooperativeStep(ending, store, k, seed[0]);
      var rest := ImportSeed(b, ending, step.store, seed[1..], k + 1);
      CooperativeImport(ending, step.store, seed[1..], k + 1);
      var run := ImportSeed(b, ending, store, seed, k);
      assert run.attempts == [step.attempt] + rest.attempts && run.result == rest.result;
      forall i | 0 < i < |seed|
        ensures run.attempts[i] == rest.attempts[i - 1] && seed[i] == seed[1..][i - 1]
      {
      }
    }
  }

  /** One recipe on a backend where everything succeeds. */
  lemma CooperativeStep(ending: Ending, store: Store, k: nat, r: Recipe)
    ensures var step := ImportRecipe(Cooperative(), ending, store, k, r);
      && step.abort.None?
      && step.attempt == Attempt(k, Statements(r), false, if ending == CommitOnSuccess then Committed else Dropped)
  {
  }

  /** As written, on a ready store where every request succeeds, the import
      reports success and sends every statement of every seed recipe, yet
      the store is left exactly as it was: a recipe row it did not already
      hold is absent afterwards. */
  lemma UncommittedRecipeIsLost(seed: seq<Recipe>, store: Store)
    ensures var run := InitDatabase(Some(Ok(seed)), DefaultDbUri, ReadyHost(), Cooperative(), store);
      && run.result == Pass
      && |run.attempts| == |seed|
      && (forall i :: 0 <= i < |seed| ==> run.attempts[i] == Attempt(i, Statements(seed[i]), false, Dropped))
      && run.store == store
      && forall i :: 0 <= i < |seed| && !Stored(store, Statements(seed[i])[0]) ==>
           !Stored(run.store, Statements(seed[i])[0])
  {
    CooperativeImport(DropUncommitted, store, seed, 0);
  }

  /** With the commit, on the same inputs, every recipe is committed and
      every row of every seed recipe is in the store afterwards. */
  lemma CommittedRecipePersists(seed: seq<Recipe>, store: Store)
    ensures var run := InitDatabaseCommitting(Some(Ok(seed)), DefaultDbUri, ReadyHost(), Cooperative(), store);
      && run.result == Pass
      && |run.attempts| == |seed|
      && (forall i :: 0 <= i < |seed| ==> run.attempts[i] == Attempt(i, Statements(seed[i]), false, Committed))
      && forall i, ins :: 0 <= i < |seed| && ins in Statements(seed[i]) ==> Stored(run.store, ins)
  {
    CooperativeImport(CommitOnSuccess, store, seed, 0);
  }
}
