/** The slice of net/http this core touches: the response writer, what a
    handler writes into it, and the outcome of reading a JSON request body. */
module Http {
  import opened Wrappers
  import UserRecord
  import ArticleRepo

  /** One `w.Write`: an `http.Error` message or a JSON document. A `None`
      list is a nil slice, which encodes as `null`. */
  datatype Part =
    | Message(text: string)
    | UserBody(user: UserRecord.JsonUser)
    | ArticleBody(article: ArticleRepo.JsonArticle)
    | ArticlesBody(articles: Option<seq<ArticleRepo.JsonArticle>>, articlesCount: int)

  /** `io.ReadAll` followed by `json.Unmarshal`. */
  datatype BodyRead<+T> = ReadError | Malformed | Parsed(value: T)

  /** An `http.ResponseWriter`: the status is fixed by the first `WriteHeader`,
      or by the first `Write` as 200; later `WriteHeader` calls are ignored. */
  class ResponseWriter {
    var header: Option<nat>
    var parts: seq<Part>

    constructor ()
      ensures header == None && parts == []
    {
      header := None;
      parts := [];
    }

    predicate Untouched()
      reads this
    {
      header == None && parts == []
    }

    /** The handler set `code` and wrote exactly `ps`. */
    predicate Responded(code: nat, ps: seq<Part>)
      reads this
    {
      header == Some(code) && parts == ps
    }

    /** The status the client receives (200 when the handler wrote nothing). */
    function Status(): nat
      reads this
    {
      header.GetOr(200)
    }

    method WriteHeader(code: nat)
      modifies this
      ensures header == (if old(header).None? then Some(code) else old(header))
      ensures parts == old(parts)
    {
      if header.None? {
        header := Some(code);
      }
    }

    method Write(p: Part)
      modifies this
      ensures header == (if old(header).None? then Some(200) else old(header))
      ensures parts == old(parts) + [p]
    {
      if header.None? {
        header := Some(200);
      }
      parts := parts + [p];
    }
  }

  /** `http.Error`: the status, then the message. */
  method Error(w: ResponseWriter, msg: string, code: nat)
    modifies w
    ensures w.header == (if old(w.header).None? then Some(code) else old(w.header))
    ensures w.parts == old(w.parts) + [Message(msg)]
  {
    w.WriteHeader(code);
    w.Write(Message(msg));
  }
}
