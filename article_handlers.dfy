/** The article HTTP handlers (internal/article/handlers.go). The article
    repository is given as the answers its calls return. */
module ArticleHandlers {
  import opened Wrappers
  import opened Http
  import opened SessionCtx
  import opened Sql
  import opened ArticleRepo

  /** Which list query a request asks for. */
  datatype Listing = ByAuthor(author: string) | ByTag(tag: string) | All

  /** The query parameters `HandleGetArticles` reads: `author` first, then
      `tag`, each by its first value; a missing or empty parameter is absent. */
  function ChooseListing(params: map<string, seq<string>>): (l: Listing)
    ensures l.ByAuthor? <==> "author" in params && |params["author"]| != 0
    ensures l.ByTag? <==> !l.ByAuthor? && "tag" in params && |params["tag"]| != 0
    ensures l.ByAuthor? ==> l.author == params["author"][0]
    ensures l.ByTag? ==> l.tag == params["tag"][0]
  {
    if "author" in params && |params["author"]| != 0 then ByAuthor(params["author"][0])
    else if "tag" in params && |params["tag"]| != 0 then ByTag(params["tag"][0])
    else All
  }

  /** An `author` parameter wins: whatever `tag` values are added, the listing stays by author. */
  lemma AuthorTakesPrecedence(params: map<string, seq<string>>, tags: seq<string>)
    requires "author" in params && |params["author"]| != 0
    ensures ChooseListing(params["tag" := tags]) == ChooseListing(params)
  {
    assert params["tag" := tags]["author"] == params["author"];
  }

  /** The 500 message of each list handler. */
  function FailureMessage(l: Listing): string {
    if l.All? then "error" else "error getting articles"
  }

  /** `articlesByTag`, `articlesByAuthor`, `allArticles`: a repository error
      writes 500 and its message, and the list body is written anyway, with
      the nil list (`null`) and count 0; otherwise the list (empty, not nil,
      when there are no rows) with its count, status 200. */
  method ListArticles(w: ResponseWriter, msg: string, result: Result<seq<Article>>)
    requires w.Untouched()
    modifies w
    ensures result.Err? ==> w.Responded(500, [Message(msg), ArticlesBody(None, 0)])
    ensures result.Ok? ==> w.Responded(200, [ArticlesBody(Some(JsonList(result.value)), |result.value|)])
    ensures forall i | 0 <= i < |w.parts| && w.parts[i].ArticlesBody? ::
              w.parts[i].articlesCount == |w.parts[i].articles.GetOr([])|
  {
    var articles: Option<seq<JsonArticle>> := None;
    var count := 0;
    if result.Err? {
      Error(w, msg, 500);
    } else {
      articles := Some(JsonList(result.value));
      count := |result.value|;
    }
    w.Write(ArticlesBody(articles, count));
  }

  /** `HandleGetArticles`: dispatch on the parameters, then one list handler. */
  method HandleGetArticles(w: ResponseWriter, params: map<string, seq<string>>,
                           answers: Listing -> Result<seq<Article>>)
    requires w.Untouched()
    modifies w
    ensures var result := answers(ChooseListing(params));
            && (result.Err? ==>
                  w.Responded(500, [Message(FailureMessage(ChooseListing(params))), ArticlesBody(None, 0)]))
            && (result.Ok? ==> w.Responded(200, [ArticlesBody(Some(JsonList(result.value)), |result.value|)]))
  {
    var listing := ChooseListing(params);
    if listing.ByAuthor? {
      ListArticles(w, "error getting articles", answers(listing));
    } else if listing.ByTag? {
      ListArticles(w, "error getting articles", answers(listing));
    } else {
      ListArticles(w, "error", answers(listing));
    }
  }

  /** `CreateArticle`: 401 without a session and 400 for an unreadable body,
      both before any statement is sent; the article is inserted under the
      session's user whatever user the body names; a repository failure is
      500, success 201 with the created article's JSON. `inserted` is the
      INSERT's argument list. */
  method CreateArticle(w: ResponseWriter, r: Request, body: BodyRead<Article>, now: string,
                       slugify: string -> string, db: ArticleDb)
    returns (sent: seq<string>, inserted: seq<Value>)
    requires w.Untouched()
    modifies w
    ensures GetFromCtx(r).None? ==> w.Responded(401, [Message("error")]) && sent == [] && inserted == []
    ensures GetFromCtx(r).Some? && body.ReadError? ==>
      w.Responded(400, [Message("can't read body")]) && sent == [] && inserted == []
    ensures GetFromCtx(r).Some? && body.Malformed? ==>
      w.Responded(400, [Message("err")]) && sent == [] && inserted == []
    ensures GetFromCtx(r).Some? && body.Parsed? ==>
      var article := body.value.(userId := GetFromCtx(r).value.userId);
      && |sent| >= 1 && sent[0] == CountTitleQuery
      && (!(db.titleCount.Ok? && db.insertedId.Ok? &&
            LinkOutcome(article.tags, db.tagIds, db.tagInsertFails) == Done && db.author.Ok?) ==>
            w.Responded(500, [Message("error")]))
      && (db.titleCount.Ok? && db.insertedId.Ok? &&
          LinkOutcome(article.tags, db.tagIds, db.tagInsertFails) == Done && db.author.Ok? ==>
            w.Responded(201, [ArticleBody(ToJson(
              article.(slug := GenerateSlug(article.title, db.titleCount, slugify).value,
                       createdAt := now, updatedAt := now,
                       id := db.insertedId.value, author := db.author.value)))]))
    ensures |inserted| > 0 ==>
      && GetFromCtx(r).Some? && |inserted| == 7 && inserted[1] == Number(GetFromCtx(r).value.userId)
    ensures w.header == Some(201) ==> GetFromCtx(r).Some? && |inserted| > 0
  {
    sent, inserted := [], [];
    var userSession := GetFromCtx(r);
    if userSession.None? {
      Error(w, "error", 401);
      return;
    }
    if body.ReadError? {
      Error(w, "can't read body", 400);
      return;
    }
    if body.Malformed? {
      Error(w, "err", 400);
      return;
    }
    var article := body.value;
    article := article.(userId := userSession.value.userId);
    var createdArticle;
    createdArticle, sent, inserted := ArticleRepo.CreateArticle(article, now, slugify, db);
    if createdArticle.Err? {
      Error(w, "error", 500);
      return;
    }
    w.WriteHeader(201);
    w.Write(ArticleBody(ToJson(createdArticle.value)));
  }
}
