# recipe-server: store URI, seed import and request dispatch

A Dafny model of the pure logic inside the Rust recipe server:

- **Store URI handling** (`src/database.rs`). `get_database_uri` chooses the store URI. `extract_database_dir` finds the directory a `sqlite://….db` store lives in.
- **Seed import** (`init_database`). This is a fold over the parsed seed recipes. It threads the committed store (the `recipes`, `ingredients` and `tags` tables) and opens one transaction per recipe. Each transaction sends the recipe's primary row, then its ingredients, then its tags, and stops at the first failing INSERT. After a failure it rolls back and moves on; a failing rollback ends the import. Whether `begin`, an INSERT, `rollback` or `commit` succeeds is an oracle (`Database.Backend`). The I/O before the import (store existence, creation, connection, migrations) is an oracle too (`Database.Host`).
- **Request dispatch.** This covers the root page handler `web_response` (`src/main.rs`) and the JSON handler `get_recipe_by_id` (`src/api.rs`). The repository functions they call are given as their results (`Web.Repository`). Each handler also reports the repository calls it made, so "nothing is fetched" and "tags are not looked up" can be stated.
- **Support.** `str::find`, `rfind`, `split`, `trim_start` and `to_lowercase` are in `Text`. `parse::<i64>` and `{}` formatting of an `i64` are in `Integers`. `RecipeServerError` is in `Errors`.

Files: `outcomes.dfy`, `errors.dfy`, `text.dfy`, `integers.dfy`, `database.dfy`, `web.dfy`, `api.dfy`.

## Behaviour worth knowing

The model follows the code in these details:

- The import never commits a transaction. See Findings.
- Tags are normalised with `trim_start` only, so trailing whitespace is kept. Nothing is trimmed on the stored side.
- On the root page, a failing random-id lookup gives 204 NO_CONTENT, not 404.
- Ids are `i64`: a negative id parses and is fetched. A leading `+` is accepted, as Rust's parser accepts it.
- `init_database` inserts `preparation` as one text. No splitting into steps happens here.

## Model

| member | source | states |
|---|---|---|
| Database.GetDatabaseUri | src/database.rs:6-14 | An explicit URI is returned verbatim. Otherwise the environment value is returned if present, else `sqlite://db/recipe-server.db`. |
| Database.ExtractDatabaseDir | src/database.rs:16-29 | Fails with `InvalidDbUri` carrying the URI exactly when the `sqlite://` prefix or the `.db` suffix is missing. Otherwise the result is a prefix of the text after `sqlite://`. It is followed there by the last `/`, or it is empty when that text has no `/`. |
| Database.DefaultDatabaseDir | src/database.rs:12-25 | The URI chosen when neither an argument nor the environment names one has the store directory `db`. |
| Text.Find | src/database.rs:18 | Finds the first occurrence of the character, or reports that there is none. |
| Text.RFind | src/database.rs:20 | Finds the last occurrence of the character, or reports that there is none. |
| Database.Statements | src/database.rs:48-91 | A recipe's INSERTs are its primary row, then one row per ingredient in order, then one row per tag in order. |
| Database.RunStatements | src/database.rs:55-91 | Statements are sent in order. The ones sent are a prefix of the plan, and nothing is sent after the first failure. On success every statement was sent and its row added. On failure the last statement sent failed and the ones before it succeeded. |
| Database.ImportRecipe | src/database.rs:47-91 | The disposition follows the backend's answers. `begin` fails exactly when the attempt is `BeginFailed`, and then nothing is sent and the import aborts with that error. Otherwise the statements sent and whether one failed are those of `RunStatements` on the committed store; every statement before a failing one succeeded, and the failing one was refused. A failed INSERT is `RolledBack` when `rollback` passes, else `RollbackFailed` with its error. A fully successful transaction is `Dropped` exactly when it ends by dropping, and `Committed` exactly when it ends by committing and `commit` passes; a failing `commit` gives `CommitFailed` with its error. The recipe aborts the import exactly for a failed `begin`, rollback or commit, with that sqlx error. The committed store changes only on a commit, and then by all of the recipe's rows. |
| Database.ImportSeed | src/database.rs:46-92 | Each attempt is the per-recipe protocol run on the store the earlier recipes left, in seed order. A recipe that does not abort is followed by the next one. If the import succeeds, every recipe was attempted and none aborted. If it fails, the last recipe attempted aborted, no earlier one did, and the error is that recipe's `begin`, rollback or commit error. The store gains exactly the rows of the committed recipes. |
| Database.Prepare | src/database.rs:35-45 | The steps before the import fail in the source's order. A failing existence check gives its error. A missing store with an invalid URI gives `InvalidDbUri`, and a failing directory or store creation gives its error. A ready store then fails with the connection or migration error, or the seed-reading error. Otherwise the result is the parsed seed, or none when no seed file was named. |
| Database.InitDatabase | src/database.rs:31-96 | An error before the loop is returned and nothing is attempted. A ready store without a seed file gives `Ok(())` at once. With a parsed seed the import loop runs over it with transactions dropped. As written, the committed store is unchanged whatever the seed and oracles, and no recipe is ever committed. |
| Database.CommittedRowsStored | src/database.rs:46-92 | With the commit, for every backend, seed and store, the import keeps the rows the store had and stores every row of every committed recipe. |
| Database.CooperativeImport | src/database.rs:46-92 | When every request succeeds, every recipe is attempted in order, all its statements are sent, and its transaction is dropped or committed as the ending says. |
| Database.NothingCommittedWhenDropping | src/database.rs:46-92 | When transactions are dropped instead of committed, the import loop leaves the store as it found it. |
| Database.UncommittedRecipeIsLost | src/database.rs:46-92 | As written, on any seed and store where every request succeeds, the import returns `Ok(())` and sends every statement of every recipe. Yet every transaction is dropped, the store is unchanged, and a recipe row it did not already hold is absent afterwards. |
| Database.InitDatabaseCommitting | src/database.rs:31-96 | With a commit after the last tag, the steps before the loop behave as in `InitDatabase`, and the store gains exactly the full row sets of the committed recipes. Rows already stored stay, and every row of every committed recipe is stored afterwards. |
| Database.CommittedRecipePersists | src/database.rs:46-92 | With the commit, on any seed and store where every request succeeds, every recipe is committed and all of its rows are in the store afterwards. |
| Web.BindAddress | src/main.rs:115-118 | A given bind address is used verbatim; without one the server uses `127.0.0.1:8888`. |
| Text.Split | src/main.rs:78-79 | Splitting on a character makes `k` separators give `k + 1` parts, with empty parts kept. No part contains the separator, and joining the parts gives the input back. |
| Text.SplitJoin | src/main.rs:78-79 | Splitting a join of separator-free parts gives the parts back. |
| Text.TrimStart | src/main.rs:80 | Only leading whitespace is removed. The result is a suffix of the input that starts with a non-whitespace character or is empty. |
| Text.ToLower | src/main.rs:80 | Lowercasing keeps the length and folds each character. |
| Text.ToLowerIsLower | src/main.rs:80 | Lowercased text has no ASCII upper-case letter (A–Z) left, and lowercasing it again changes nothing. |
| Web.NormalizeTags | src/main.rs:78-81 | A comma list with `k` commas gives `k + 1` tags. Each is the matching part with leading whitespace removed, then lowercased, and none contains a comma. |
| Web.NormalizeTagsOfNormalized | src/main.rs:78-81 | Comma-joining already-normalised tags and normalising gives the same tags back. |
| Web.RandomBranch | src/main.rs:97-107 | A random id redirects to `/?id=<id>`. A failing random lookup gives 204. |
| Web.WebResponse | src/main.rs:51-108 | With an id, only that id is fetched: success gives the page, failure 404. Without an id, empty or absent tags go straight to the random branch. A tag hit redirects to its id; a miss or error falls through to the random branch. 404 only arises with an id and 204 only from the random lookup. The handler itself never returns 400. |
| Web.IdIgnoresTags | src/main.rs:57-70 | With an id, the reply is the same whatever the tags and the other repository answers. |
| Web.TagMissFallsThrough | src/main.rs:82-98 | A tag lookup that misses or fails gives the same reply as a request without tags. |
| Web.RecipeLocation | src/main.rs:83-85 | A redirect location is `/?id=` followed by the decimal text of the id: its digits denote the id, after a `-` when the id is negative. |
| Web.RecipeLocationRoundTrip | src/main.rs:83-85 | The redirect `/?id=<id>` carries text that parses back to the same `i64` id. |
| Integers.ParseI64 | src/api.rs:9 | An accepted id is an `i64`. Its text is an optional sign and digits, and the sign agrees with the value. |
| Integers.ParseSignedDigits | src/api.rs:9 | An optional `+` or `-` followed by at least one digit is accepted exactly when its value fits in an `i64`, and then gives that value. |
| Integers.FormatInt | src/main.rs:100 | The `{}` text of an integer is its shortest decimal digit string, after a `-` when it is negative, and those digits denote its magnitude. |
| Integers.ParseFormat | src/api.rs:9 | Parsing the decimal text of any `i64` gives it back. |
| Api.GetRecipeById | src/api.rs:4-21 | 400 exactly when the id does not parse, and then nothing is fetched. A parsed id is fetched unchanged, once. Success returns the fetched recipe; a fetch error gives 404. |
| Api.FormattedIdIsFetched | src/api.rs:9-10 | The decimal text of an `i64` id leads to a fetch of that id. |

## Left out

- Store creation, connection and migrations (src/database.rs:35-42) are file-system and sqlx I/O. They appear only as the outcomes in `Database.Host`.
- Reading and parsing the seed JSON (`read_recipes_json`) is left out. The seed is given as the parsed `seq<Recipe>`, or as the error reading it produced. `src/recipe.rs` in this snapshot has no such function, and its `Recipe` differs from the one `init_database` uses.
- SQL semantics and constraints are not modelled. Whether an INSERT succeeds is an oracle over the transaction's current view, because the schema is not part of this model. The `Backend` oracles for `begin`, `rollback` and `commit` are indexed by the recipe's seed position.
- The rollback sqlx performs when an uncommitted transaction is dropped is not modelled as a request that can fail. Its outcome is never observed by the code.
- The `fetch_recipe` stub at src/database.rs:98-100 always returns `None` and is not modelled. The repository functions the handlers call (`fetch_recipe(&db, id)`, `fetch_recipe_id`, `random_recipe_id`) are not part of this model. Their results are inputs.
- Routing, CORS, tracing, OpenAPI/Redoc/Swagger, static files and HTML rendering are left out (src/main.rs:110-171, src/templates.rs). A page is represented by the recipe it shows.
- Process exit in `main` and logging via `log::error!` / `eprintln!` are left out: they are side effects only.
- The `Arc<RwLock<AppState>>` around the pool is concurrency, not decision logic, and is left out.
- Text.TrimStart: only ASCII whitespace (space, tab, line feed, vertical tab, form feed, carriage return) is removed. Rust also removes other Unicode white space.
- Text.ToLower: only ASCII letters are folded. Rust's `to_lowercase` is full Unicode.
- Database.GetDatabaseUri: an unset variable and one holding invalid Unicode both count as absent. `std::env::var` fails in both cases.
- Strings are sequences of characters, while Rust slices bytes. Every index the model uses is next to an ASCII character (`:`, `/`), so both give the same text.
- Integers.ParseI64: Rust detects overflow digit by digit. The model checks the range of the final value, which rejects the same strings because the magnitude never shrinks as digits are added.
- Web.WebResponse: the id is an unbounded integer. In the source, axum's `Query<WebQueryParams>` extractor (src/main.rs:41-45, 53) rejects a query whose `id` is not an `i64` with 400 before the handler runs; that extractor is not part of this model.
- The client in `client-yew/` and the script `test/api.py` are not part of this model.

## Findings

| source | as written | input that shows it | evidently intended | confidence | as-written member | corrected member |
|---|---|---|---|---|---|---|
| src/database.rs:46-92 | Each recipe's transaction is never committed. It is dropped at the end of the loop body, and sqlx then rolls it back, so no seed recipe is ever stored. | An existing store and a seed with one recipe whose INSERTs all succeed: the import returns `Ok(())` and the `recipes` table stays empty. | Commit the transaction after the last tag INSERT, so that successfully inserted recipes persist. | high; not executed | Database.UncommittedRecipeIsLost | Database.CommittedRecipePersists |
