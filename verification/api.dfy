/** The JSON API handler `get_recipe_by_id` (src/api.rs): the path segment
    must parse as an `i64`, and the fetch of that id decides the reply. */
module Api {
  import opened Outcomes
  import opened Errors
  import opened Integers
  import opened Database
  import opened Web

  /** The handler's reply (the recipe, serialised as JSON, or a status) and
      the repository calls made. */
  datatype ApiHandled = ApiHandled(reply: Result<Recipe, StatusCode>, calls: seq<Call>)

  function GetRecipeById(recipeId: string, fetchRecipe: int -> Result<Recipe, RecipeServerError>): (h: ApiHandled)
    // 400 exactly when the id does not parse, and then nothing is fetched
    ensures h.reply == Err(BadRequest) <==> ParseI64(recipeId).None?
    ensures ParseI64(recipeId).None? ==> h.calls == []
    // a parsed id is fetched unchanged, once
    ensures ParseI64(recipeId).Some? ==> h.calls == [FetchRecipe(ParseI64(recipeId).value)]
    // the reply is the fetched recipe, or 404 when the fetch fails
    ensures h.reply.Ok? ==> |h.calls| == 1 && fetchRecipe(h.calls[0].id) == Ok(h.reply.value)
    ensures h.reply == Err(NotFound) <==> h.calls != [] && fetchRecipe(h.calls[0].id).Err?
    ensures h.reply.Err? ==> h.reply.error == BadRequest || h.reply.error == NotFound
  {
    match ParseI64(recipeId)
    case Some(id) =>
      (match fetchRecipe(id)
       case Ok(recipe) => ApiHandled(Ok(recipe), [FetchRecipe(id)])
       case Err(_) => ApiHandled(Err(NotFound), [FetchRecipe(id)]))
    case None => ApiHandled(Err(BadRequest), [])
  }

  /** The path segment written for an `i64` id asks for exactly that id. */
  lemma FormattedIdIsFetched(id: int, fetchRecipe: int -> Result<Recipe, RecipeServerError>)
    requires InI64(id)
    ensures GetRecipeById(FormatInt(id), fetchRecipe).calls == [FetchRecipe(id)]
  {
    ParseFormat(id);
  }
}
