/** The article repository (internal/article/repo.go): the parts that are
    decisions and string building. The database is not state here: every
    method receives what the database answers (`ArticleDb`, `Rows`) and
    returns the statements it sent, so "no query issued" is `sent == []`. */
module ArticleRepo {
  import opened Wrappers
  import opened Sql
  import opened Text

  datatype Author = Author(username: string, bio: NullString)

  datatype Article = Article(
    id: nat,
    slug: string,
    userId: nat,
    body: string,
    title: string,
    description: string,
    createdAt: string,
    updatedAt: string,
    tags: seq<string>,
    author: Author)

  /** The JSON object `encoding/json` writes for an `Article`: `ID` and
      `UserID` are tagged `json:"-"`, and the author's bio is `null` when it
      is not valid. */
  datatype JsonArticle = JsonArticle(
    slug: string,
    body: string,
    title: string,
    description: string,
    createdAt: string,
    updatedAt: string,
    tagList: seq<string>,
    authorName: string,
    authorBio: Option<string>)

  function ToJson(a: Article): (j: JsonArticle)
    ensures j.tagList == a.tags && j.slug == a.slug
    ensures j.authorBio.Some? <==> a.author.bio.valid
    ensures j.authorBio.Some? ==> j.authorBio.value == a.author.bio.s
  {
    JsonArticle(a.slug, a.body, a.title, a.description, a.createdAt, a.updatedAt, a.tags,
                a.author.username, if a.author.bio.valid then Some(a.author.bio.s) else None)
  }

  /** The id and the owner never reach the JSON: two articles encode the same
      exactly when they agree on every other field. */
  lemma JsonHidesIds(a: Article, b: Article)
    ensures ToJson(a) == ToJson(b) <==>
      a.slug == b.slug && a.body == b.body && a.title == b.title &&
      a.description == b.description && a.createdAt == b.createdAt &&
      a.updatedAt == b.updatedAt && a.tags == b.tags && a.author.username == b.author.username &&
      a.author.bio.valid == b.author.bio.valid && (a.author.bio.valid ==> a.author.bio.s == b.author.bio.s)
  {
  }

  /** A list of articles as JSON, in order. */
  function JsonList(articles: seq<Article>): (js: seq<JsonArticle>)
    ensures |js| == |articles|
    ensures forall i | 0 <= i < |articles| :: js[i] == ToJson(articles[i])
  {
    seq(|articles|, i requires 0 <= i < |articles| => ToJson(articles[i]))
  }

  /** `getTags`: one tag per result row, in row order; a failed query or scan fails the call. */
  method GetTags(rows: Rows<string>) returns (r: Result<seq<string>>)
    ensures r.Ok? <==> rows.Rows? && AllScanned(rows.items)
    ensures r.Ok? ==> |r.value| == |rows.items|
    ensures r.Ok? ==> forall i | 0 <= i < |rows.items| :: r.value[i] == rows.items[i].value
  {
    if rows.QueryError? {
      return Err;
    }
    var tags: seq<string> := [];
    for i := 0 to |rows.items|
      invariant AllScanned(rows.items[..i])
      invariant |tags| == i
      invariant forall j | 0 <= j < i :: tags[j] == rows.items[j].value
    {
      if rows.items[i].ScanError? {
        return Err;
      }
      tags := tags + [rows.items[i].value];
    }
    assert rows.items[..|rows.items|] == rows.items;
    r := Ok(tags);
  }

  // ---- addTags ---------------------------------------------------------------

  function TagLiteral(t: string): string {
    "'" + t + "'"
  }

  function TagLiterals(tags: seq<string>): (lits: seq<string>)
    ensures |lits| == |tags|
    ensures forall i | 0 <= i < |tags| :: lits[i] == TagLiteral(tags[i])
  {
    seq(|tags|, i requires 0 <= i < |tags| => TagLiteral(tags[i]))
  }

  /** The tag-id lookup `addTags` sends for a non-empty tag list. */
  function TagIdQuery(tags: seq<string>): string {
    "SELECT id FROM tag WHERE text IN (" + Join(TagLiterals(tags), ", ") + ")"
  }

  /** One `(articleId, tagId)` tuple of the link insert. */
  function LinkTuple(articleId: nat, tagId: int): string {
    "(" + NatToString(articleId) + ", " + IntToString(tagId) + ")"
  }

  function LinkTuples(articleId: nat, tagIds: seq<int>): (ts: seq<string>)
    ensures |ts| == |tagIds|
    ensures forall i | 0 <= i < |tagIds| :: ts[i] == LinkTuple(articleId, tagIds[i])
  {
    seq(|tagIds|, i requires 0 <= i < |tagIds| => LinkTuple(articleId, tagIds[i]))
  }

  /** The link insert sent for the tag ids the lookup returned. */
  function LinkInsert(articleId: nat, tagIds: seq<int>): string {
    "INSERT INTO article_tags (article_id, tag_id) VALUES " + Join(LinkTuples(articleId, tagIds), ",")
  }

  /** The `tagsBuilder` loop and its trim: every tag single-quoted, joined by
      `", "`; trimming two characters removes exactly the last separator. */
  method BuildTagList(tags: seq<string>) returns (list: string)
    requires |tags| > 0
    ensures list == Join(TagLiterals(tags), ", ")
  {
    var lits := TagLiterals(tags);
    var builder := "";
    for i := 0 to |tags|
      invariant builder == Terminated(lits[..i], ", ")
    {
      assert lits[..i + 1][..i] == lits[..i];
      builder := builder + ("'" + tags[i] + "', ");
    }
    assert lits[..|tags|] == lits;
    TerminatedIsJoinThenSep(lits, ", ");
    list := builder[..|builder| - 2];
  }

  lemma LinkTuplesSnoc(articleId: nat, ids: seq<int>, id: int)
    ensures LinkTuples(articleId, ids + [id]) == LinkTuples(articleId, ids) + [LinkTuple(articleId, id)]
  {
  }

  lemma TerminatedSnoc(xs: seq<string>, x: string, sep: string)
    ensures Terminated(xs + [x], sep) == Terminated(xs, sep) + x + sep
  {
    assert (xs + [x])[..|xs|] == xs;
  }

  /** The `valuesBuilder` loop: one `(articleId, tagId),` per scanned row, in
      row order; a scan error fails it. */
  method BuildLinkValues(articleId: nat, items: seq<Scan<int>>) returns (r: Result<string>)
    ensures r.Ok? <==> AllScanned(items)
    ensures r.Ok? ==> r.value == Terminated(LinkTuples(articleId, ScannedValues(items)), ",")
  {
    var builder := "";
    ghost var ids: seq<int> := [];
    for i := 0 to |items|
      invariant AllScanned(items[..i])
      invariant ids == ScannedValues(items[..i])
      invariant builder == Terminated(LinkTuples(articleId, ids), ",")
    {
      if items[i].ScanError? {
        assert !AllScanned(items);
        return Err;
      }
      var tagId := items[i].value;
      var piece := "(" + NatToString(articleId) + ", " + IntToString(tagId) + "),";
      assert piece == LinkTuple(articleId, tagId) + ",";
      LinkTuplesSnoc(articleId, ids, tagId);
      TerminatedSnoc(LinkTuples(articleId, ids), LinkTuple(articleId, tagId), ",");
      ScannedValuesSnoc(items, i);
      builder := builder + piece;
      ids := ids + [tagId];
    }
    assert items[..|items|] == items;
    r := Ok(builder);
  }

  /** How `addTags` ends. `Panicked` is the nil-dereference panic of the code as
      written (see `AddTagsAsWritten`). */
  datatype Completion = Done | Failed | Panicked

  /** The outcome `addTags` is meant to have: success without a query for no
      tags, failure on a failed lookup or scan, success without an insert when
      no tag id matched, and otherwise whatever the insert gives. */
  function LinkOutcome(tags: seq<string>, tagRows: Rows<int>, insertFails: bool): (c: Completion)
    ensures c != Panicked
    ensures |tags| == 0 ==> c == Done
    ensures |tags| > 0 && tagRows.QueryError? ==> c == Failed
    ensures c == Failed && !insertFails ==> tagRows.QueryError? || !AllScanned(tagRows.items)
  {
    if |tags| == 0 then Done
    else if tagRows.QueryError? then Failed
    else if !AllScanned(tagRows.items) then Failed
    else if |tagRows.items| == 0 then Done
    else if insertFails then Failed
    else Done
  }

  /** The statements `addTags` sends. */
  function LinkStatements(articleId: nat, tags: seq<string>, tagRows: Rows<int>): (sent: seq<string>)
    ensures |sent| <= 2
    ensures sent == [] <==> |tags| == 0
    ensures |sent| > 0 ==> sent[0] == TagIdQuery(tags)
    ensures |sent| == 2 <==> |tags| > 0 && tagRows.Rows? && AllScanned(tagRows.items) && |tagRows.items| > 0
    ensures |sent| == 2 ==> sent[1] == LinkInsert(articleId, ScannedValues(tagRows.items))
  {
    if |tags| == 0 then []
    else if tagRows.QueryError? || !AllScanned(tagRows.items) || |tagRows.items| == 0 then [TagIdQuery(tags)]
    else [TagIdQuery(tags), LinkInsert(articleId, ScannedValues(tagRows.items))]
  }

  /** Everything `addTags` does after its lookup returned rows. */
  method LinkScannedTags(articleId: nat, tagQuery: string, items: seq<Scan<int>>, insertFails: bool)
    returns (r: Completion, sent: seq<string>)
    ensures r == (if !AllScanned(items) then Failed else if |items| == 0 then Done
                  else if insertFails then Failed else Done)
    ensures sent == (if !AllScanned(items) || |items| == 0 then [tagQuery]
                     else [tagQuery, LinkInsert(articleId, ScannedValues(items))])
  {
    sent := [tagQuery];
    var built := BuildLinkValues(articleId, items);
    if built.Err? {
      return Failed, sent;
    }
    var values := built.value;
    if |items| > 0 {
      TerminatedIsJoinThenSep(LinkTuples(articleId, ScannedValues(items)), ",");
    }
    if |values| == 0 {
      return Done, sent;
    }
    values := values[..|values| - 1];
    sent := sent + ["INSERT INTO article_tags (article_id, tag_id) VALUES " + values];
    r := if insertFails then Failed else Done;
  }

  /** `addTags` with the lookup's error returned to the caller: the model the
      rest of this project uses. */
  method AddTags(article: Article, tagRows: Rows<int>, insertFails: bool)
    returns (r: Completion, sent: seq<string>)
    ensures r == LinkOutcome(article.tags, tagRows, insertFails)
    ensures sent == LinkStatements(article.id, article.tags, tagRows)
    ensures r != Panicked
  {
    if |article.tags| == 0 {
      return Done, [];
    }
    var list := BuildTagList(article.tags);
    var query := "SELECT id FROM tag WHERE text IN (" + list + ")";
    if tagRows.QueryError? {
      return Failed, [query];
    }
    r, sent := LinkScannedTags(article.id, query, tagRows.items, insertFails);
  }

  /** `addTags` as written: `defer rows.Close()` is registered before the
      lookup's error is checked, and `db.Query` returns a nil `*Rows` with its
      error, so returning from the error branch runs `Close` on nil and panics
      instead of returning the error. */
  method AddTagsAsWritten(article: Article, tagRows: Rows<int>, insertFails: bool)
    returns (r: Completion, sent: seq<string>)
    ensures |article.tags| > 0 && tagRows.QueryError? ==> r == Panicked
    ensures !(|article.tags| > 0 && tagRows.QueryError?) ==>
      r == LinkOutcome(article.tags, tagRows, insertFails)
    ensures sent == LinkStatements(article.id, article.tags, tagRows)
  {
    if |article.tags| == 0 {
      return Done, [];
    }
    var list := BuildTagList(article.tags);
    var query := "SELECT id FROM tag WHERE text IN (" + list + ")";
    var rowsIsNil := tagRows.QueryError?;
    if tagRows.QueryError? {
      r, sent := Failed, [query];
    } else {
      r, sent := LinkScannedTags(article.id, query, tagRows.items, insertFails);
    }
    if rowsIsNil {
      // the deferred rows.Close() dereferences the nil *Rows
      r := Panicked;
    }
  }

  /** A tag lookup that fails (a tag holding a quote breaks the IN list, for
      one) makes the code as written panic. */
  method TagLookupFailurePanics() returns (r: Completion)
    ensures r == Panicked
  {
    var a := Article(1, "", 1, "", "", "", "", "", ["it's"], Author("", NullStr));
    var sent;
    r, sent := AddTagsAsWritten(a, QueryError, false);
  }

  // ---- generateSlug ----------------------------------------------------------

  /** `generateSlug` given the `COUNT(*)` of articles with the same title:
      `slugify` stands for `slug.Make`. */
  function GenerateSlug(title: string, count: Result<nat>, slugify: string -> string): (r: Result<string>)
    ensures r.Ok? <==> count.Ok?
    ensures r.Ok? ==> slugify(title) <= r.value
    ensures count == Ok(0) ==> r == Ok(slugify(title))
  {
    if count.Err? then Err
    else if count.value != 0 then Ok(slugify(title) + "--" + NatToString(count.value))
    else Ok(slugify(title))
  }

  /** The count suffix de-duplicates: for one title, different counts give different slugs. */
  lemma SlugsDifferByCount(title: string, slugify: string -> string, k1: nat, k2: nat)
    requires k1 != k2
    ensures GenerateSlug(title, Ok(k1), slugify) != GenerateSlug(title, Ok(k2), slugify)
  {
    var base := slugify(title);
    if k1 != 0 && k2 != 0 {
      var s1, s2 := base + "--" + NatToString(k1), base + "--" + NatToString(k2);
      if s1 == s2 {
        assert NatToString(k1) == s1[|base| + 2..];
        assert NatToString(k2) == s2[|base| + 2..];
        NatToStringInjective(k1, k2);
      }
    }
  }

  // ---- CreateArticle ---------------------------------------------------------

  const CountTitleQuery := "SELECT COUNT(*) FROM article WHERE title = $1"
  const InsertColumnList := "slug, user_id, body, title, description, created_at, updated_at"
  const InsertArticleQuery :=
    "INSERT INTO article (" + InsertColumnList + ") VALUES ($1, $2, $3, $4, $5, $6, $7) RETURNING id"
  const AuthorQuery := "SELECT username, bio FROM user_data WHERE id = $1"

  /** The columns the article INSERT names, bound to `$1` to `$7` in order. */
  const InsertColumns := ["slug", "user_id", "body", "title", "description", "created_at", "updated_at"]

  /** The field of `a` that belongs in the `article` column `column`. */
  function ColumnValue(a: Article, column: string): Option<Value> {
    match column
    case "slug" => Some(Text(a.slug))
    case "user_id" => Some(Number(a.userId))
    case "body" => Some(Text(a.body))
    case "title" => Some(Text(a.title))
    case "description" => Some(Text(a.description))
    case "created_at" => Some(Text(a.createdAt))
    case "updated_at" => Some(Text(a.updatedAt))
    case _ => None
  }

  lemma JoinFirstColumns()
    ensures Join(InsertColumns[..4], ", ") == "slug, user_id, body, title"
  {
    var cs := InsertColumns;
    assert cs[..4][..3] == cs[..3] && cs[..3][..2] == cs[..2] && cs[..2][..1] == cs[..1];
    assert Join(cs[..1], ", ") == "slug";
    assert Join(cs[..2], ", ") == "slug, user_id";
    assert Join(cs[..3], ", ") == "slug, user_id, body";
  }

  /** The INSERT names exactly `InsertColumns` and one placeholder for each. */
  lemma InsertQueryNamesColumns()
    ensures InsertArticleQuery ==
      "INSERT INTO article (" + Join(InsertColumns, ", ") + ") VALUES ($1, $2, $3, $4, $5, $6, $7) RETURNING id"
  {
    var cs := InsertColumns;
    JoinFirstColumns();
    assert cs[..6][..5] == cs[..5] && cs[..5][..4] == cs[..4] && cs[..6] == cs[..|cs| - 1];
    assert Join(cs[..5], ", ") == "slug, user_id, body, title, description";
    assert Join(cs[..6], ", ") == "slug, user_id, body, title, description, created_at";
    assert Join(cs, ", ") == InsertColumnList;
  }

  /** The arguments of the article INSERT: each placeholder carries the field
      of the column it is bound to, so the owner is bound to `user_id`. */
  function InsertValues(a: Article): (args: seq<Value>)
    ensures |args| == |InsertColumns|
    ensures forall i | 0 <= i < |args| :: ColumnValue(a, InsertColumns[i]) == Some(args[i])
    ensures args[1] == Number(a.userId)
  {
    [Text(a.slug), Number(a.userId), Text(a.body), Text(a.title), Text(a.description),
     Text(a.createdAt), Text(a.updatedAt)]
  }

  /** What the database answers to the statements `CreateArticle` sends. */
  datatype ArticleDb = ArticleDb(
    titleCount: Result<nat>,
    insertedId: Result<nat>,
    tagIds: Rows<int>,
    tagInsertFails: bool,
    author: Result<Author>)

  /** `CreateArticle`: the slug is settled before the insert, both timestamps
      are the same `now`, the id is the one the insert returned; a failed slug
      query sends nothing further. `inserted` is the INSERT's argument list. */
  method CreateArticle(article: Article, now: string, slugify: string -> string, db: ArticleDb)
    returns (r: Result<Article>, sent: seq<string>, inserted: seq<Value>)
    ensures |sent| >= 1 && sent[0] == CountTitleQuery
    ensures db.titleCount.Err? ==> r.Err? && sent == [CountTitleQuery] && inserted == []
    ensures db.titleCount.Ok? ==> |sent| >= 2 && sent[1] == InsertArticleQuery
    ensures db.titleCount.Ok? ==>
      inserted == InsertValues(article.(slug := GenerateSlug(article.title, db.titleCount, slugify).value,
                                        createdAt := now, updatedAt := now))
    ensures r.Ok? <==>
      db.titleCount.Ok? && db.insertedId.Ok? &&
      LinkOutcome(article.tags, db.tagIds, db.tagInsertFails) == Done && db.author.Ok?
    ensures r.Ok? ==>
      r.value == article.(slug := GenerateSlug(article.title, db.titleCount, slugify).value,
                          createdAt := now, updatedAt := now,
                          id := db.insertedId.value, author := db.author.value)
    ensures r.Ok? ==>
      sent == [CountTitleQuery, InsertArticleQuery] +
              LinkStatements(db.insertedId.value, article.tags, db.tagIds) + [AuthorQuery]
  {
    sent, inserted := [CountTitleQuery], [];
    var slug := GenerateSlug(article.title, db.titleCount, slugify);
    if slug.Err? {
      return Err, sent, inserted;
    }
    var a := article.(slug := slug.value);
    a := a.(updatedAt := now, createdAt := now);
    sent, inserted := sent + [InsertArticleQuery], InsertValues(a);
    if db.insertedId.Err? {
      return Err, sent, inserted;
    }
    a := a.(id := db.insertedId.value);
    var linked, linkSent := AddTags(a, db.tagIds, db.tagInsertFails);
    sent := sent + linkSent;
    if linked != Done {
      return Err, sent, inserted;
    }
    sent := sent + [AuthorQuery];
    if db.author.Err? {
      return Err, sent, inserted;
    }
    a := a.(author := db.author.value);
    r := Ok(a);
  }
}
