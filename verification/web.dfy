/** The decision logic of the root page handler `web_response` and the
    bind-address default of `serve` (src/main.rs). The repository calls the
    handler makes are taken as a `Repository` of their results; the handler
    also reports the calls it made, in order. */
module Web {
  import opened Outcomes
  import opened Errors
  import opened Text
  import opened Integers
  import opened Database

  const DefaultBindAddr: string := "127.0.0.1:8888"

  /** The address `serve` listens on: the one given, else the default. */
  function BindAddress(bindAddr: Option<string>): (addr: string)
    ensures bindAddr.Some? ==> addr == bindAddr.value
    ensures bindAddr.None? ==> addr == DefaultBindAddr
  {
    match bindAddr
    case Some(a) => a
    case None => DefaultBindAddr
  }

  /** The error statuses the handlers return: 400 BAD_REQUEST, 404
      NOT_FOUND and 204 NO_CONTENT. */
  datatype StatusCode = BadRequest | NotFound | NoContent

  /** A successful response of the root page: the rendered recipe page, or
      a redirect to another location. */
  datatype Response = Html(recipe: Recipe) | Redirect(location: string)

  /** The query parameters of the root page. */
  datatype WebQueryParams = WebQueryParams(id: Option<int>, tags: Option<string>)

  /** A repository call made while serving a request. */
  datatype Call = FetchRecipe(id: int) | FetchRecipeId(tags: seq<string>) | RandomRecipeId

  /** What the repository answers to each call. */
  datatype Repository = Repository(
    fetchRecipe: int -> Result<Recipe, RecipeServerError>,
    fetchRecipeId: seq<string> -> Result<Option<int>, RecipeServerError>,
    randomRecipeId: Result<int, RecipeServerError>)

  /** The handler's reply and the repository calls made, in order. */
  datatype Handled = Handled(reply: Result<Response, StatusCode>, calls: seq<Call>)

  /** The location `/?id=<id>` that shows recipe `id`. */
  function RecipeLocation(id: int): (loc: string)
    ensures |loc| > 5 && loc[..5] == "/?id="
    ensures id >= 0 ==> AllDigits(loc[5..]) && DigitsValue(loc[5..]) == id
    ensures id < 0 ==> |loc| > 6 && loc[5] == '-' && AllDigits(loc[6..]) && DigitsValue(loc[6..]) == -id
  {
    "/?id=" + FormatInt(id)
  }

  /** The query value of a recipe location gives back the recipe id. */
  lemma RecipeLocationRoundTrip(id: int)
    requires InI64(id)
    ensures var loc := RecipeLocation(id);
      |loc| > 5 && loc[..5] == "/?id=" && ParseI64(loc[5..]) == Some(id)
  {
    ParseFormat(id);
    assert RecipeLocation(id)[5..] == FormatInt(id);
  }

  /** The tag list looked up for the `tags` parameter: split at every comma,
      each part stripped of leading whitespace and lowercased. */
  function NormalizeTags(tags: string): (r: seq<string>)
    ensures |r| == Count(tags, ',') + 1
    ensures forall i :: 0 <= i < |r| ==> r[i] == ToLower(TrimStart(Split(tags, ',')[i]))
    ensures forall i :: 0 <= i < |r| ==> ',' !in r[i]
  {
    var parts := Split(tags, ',');
    var r := seq(|parts|, i requires 0 <= i < |parts| => ToLower(TrimStart(parts[i])));
    forall i | 0 <= i < |r| ensures ',' !in r[i] {
      NormalizedPartHasNoComma(parts[i]);
    }
    r
  }

  lemma NormalizedPartHasNoComma(part: string)
    requires ',' !in part
    ensures ',' !in ToLower(TrimStart(part))
  {
    var t := TrimStart(part);
    forall j | 0 <= j < |t| ensures ToLower(t)[j] != ',' {
      assert t[j] == part[|part| - |t| + j];
    }
  }

  /** Normalising a comma-joined list of already normalised tags gives
      those tags back, in order. */
  lemma NormalizeTagsOfNormalized(tags: seq<string>)
    requires |tags| > 0
    requires forall i :: 0 <= i < |tags| ==> ',' !in tags[i] && tags[i] == ToLower(TrimStart(tags[i]))
    ensures NormalizeTags(Join(tags, ',')) == tags
  {
    SplitJoin(tags, ',');
  }

  /** The random fallback: a redirect to the random id, or 204 when the
      repository cannot give one. */
  function RandomBranch(repo: Repository): (reply: Result<Response, StatusCode>)
    ensures repo.randomRecipeId.Ok? ==> reply == Ok(Redirect(RecipeLocation(repo.randomRecipeId.value)))
    ensures repo.randomRecipeId.Err? ==> reply == Err(NoContent)
  {
    match repo.randomRecipeId
    case Ok(id) => Ok(Redirect(RecipeLocation(id)))
    case Err(_) => Err(NoContent)
  }

  /** `web_response`: an `id` decides alone; otherwise non-empty `tags` are
      looked up and a hit redirects to it; everything else falls back to a
      random recipe. */
  function WebResponse(repo: Repository, params: WebQueryParams): (h: Handled)
    // an id: only the fetch of that id is made, and it alone decides
    ensures params.id.Some? ==> h.calls == [FetchRecipe(params.id.value)]
    ensures params.id.Some? ==>
              (h.reply.Ok? <==> repo.fetchRecipe(params.id.value).Ok?)
              && (h.reply.Ok? ==> h.reply.value == Html(repo.fetchRecipe(params.id.value).value))
              && (h.reply.Err? ==> h.reply.error == NotFound)
    // no id: the random id is asked for last unless a tag lookup found a recipe
    ensures params.id.None? ==> 1 <= |h.calls| <= 2
    ensures params.id.None? && (params.tags.None? || params.tags.value == "") ==>
              h.calls == [RandomRecipeId] && h.reply == RandomBranch(repo)
    ensures params.id.None? && params.tags.Some? && params.tags.value != "" ==>
              h.calls[0] == FetchRecipeId(NormalizeTags(params.tags.value))
    ensures params.id.None? && params.tags.Some? && params.tags.value != "" ==>
              var found := repo.fetchRecipeId(NormalizeTags(params.tags.value));
              if found.Ok? && found.value.Some? then
                h.calls == [FetchRecipeId(NormalizeTags(params.tags.value))]
                && h.reply == Ok(Redirect(RecipeLocation(found.value.value)))
              else
                h.calls == [FetchRecipeId(NormalizeTags(params.tags.value)), RandomRecipeId]
                && h.reply == RandomBranch(repo)
    // which statuses can come out, and from where
    ensures h.reply == Err(NotFound) ==> params.id.Some?
    ensures h.reply == Err(NoContent) ==> params.id.None? && h.calls[|h.calls| - 1] == RandomRecipeId
    ensures h.reply != Err(BadRequest)
    ensures h.reply.Ok? && h.reply.value.Html? ==> params.id.Some?
  {
    match params.id
    case Some(id) =>
      (match repo.fetchRecipe(id)
       case Ok(recipe) => Handled(Ok(Html(recipe)), [FetchRecipe(id)])
       case Err(_) => Handled(Err(NotFound), [FetchRecipe(id)]))
    case None =>
      if params.tags.Some? && params.tags.value != "" then
        var tags := NormalizeTags(params.tags.value);
        match repo.fetchRecipeId(tags)
        case Ok(Some(id)) => Handled(Ok(Redirect(RecipeLocation(id))), [FetchRecipeId(tags)])
        case _ => Handled(RandomBranch(repo), [FetchRecipeId(tags), RandomRecipeId])
      else
        Handled(RandomBranch(repo), [RandomRecipeId])
  }

  /** With an id, the `tags` parameter and the other repository calls do not
      matter. */
  lemma IdIgnoresTags(repo: Repository, repo': Repository, id: int, tags: Option<string>, tags': Option<string>)
    requires repo.fetchRecipe(id) == repo'.fetchRecipe(id)
    ensures WebResponse(repo, WebQueryParams(Some(id), tags)) == WebResponse(repo', WebQueryParams(Some(id), tags'))
  {
  }

  /** A tag lookup that finds nothing, or fails, leads to the same reply as
      a request without tags. */
  lemma TagMissFallsThrough(repo: Repository, tags: string)
    requires tags != ""
    requires var found := repo.fetchRecipeId(NormalizeTags(tags)); found.Err? || found.value.None?
    ensures WebResponse(repo, WebQueryParams(None, Some(tags))).reply == WebResponse(repo, WebQueryParams(None, None)).reply
  {
  }
}
