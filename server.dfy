/**
  The request handlers of the backend over one Analytics collection, run one
  request at a time. The encyclopedia's answers are parameters: a handler
  writes its counter first and only then looks at the answer, so a failed or
  missing answer never undoes the write.
*/
module Server {
  import opened Wrappers
  import opened Analytics
  import opened Ranking
  import opened AdminAuth

  /** The encyclopedia's answer to a search: its JSON body, or a failed call. */
  datatype SearchReply = SearchData(body: string) | SearchFailed

  /** The encyclopedia's answer to a page request: the parsed page, a body that
      carries an `error` field (no such page), or a failed call. */
  datatype PageReply = Parsed(title: string, html: string) | PageError | PageFailed

  /** What a handler sends back: a success body, or an HTTP status with its message. */
  datatype Response =
    | SearchResults(body: string)
    | PageContent(title: string, htmlContent: string)
    | RecordList(records: seq<Record>)
    | Failure(status: int, message: string)

  const InternalError: string := "Internal Server Error"
  const PageNotFound: string := "Page not found"
  const InvalidOrder: string := "Invalid order parameter. Use \"asc\" or \"desc\"."

  /** The Analytics collection, as the sequence of its documents. */
  class AnalyticsCollection {
    var records: seq<Record>

    /** Counters are at least 1, and find-or-increment keeps one document per keyword. */
    ghost predicate Valid()
      reads this
    {
      AllPositive(records) && UniqueKeywords(records)
    }

    constructor ()
      ensures Valid() && records == []
    {
      records := [];
    }

    /** `GET /search?term=`: find the first document with this keyword and raise
        its count, or save a new one at count 1; then relay the encyclopedia's
        answer, or 500 if the call failed. The write stays either way. */
    method Search(term: string, reply: SearchReply) returns (resp: Response)
      requires Valid()
      modifies this
      ensures Valid()
      ensures records == SearchStep(old(records), term)
      ensures reply.SearchData? ==> resp == SearchResults(reply.body)
      ensures reply.SearchFailed? ==> resp == Failure(500, InternalError)
    {
      SearchKeepsPositive(records, term);
      SearchKeepsUniqueKeywords(records, term);
      var existing := FindKeyword(records, term);
      match existing {
        case Some(i) =>
          var doc := records[i];
          records := records[i := doc.(count := doc.count + 1)];
        case None =>
          records := records + [KeywordRecord(term)];
      }
      match reply {
        case SearchData(body) => resp := SearchResults(body);
        case SearchFailed => resp := Failure(500, InternalError);
      }
    }

    /** `GET /read/:slug`: always save a new page document at count 1; then 404
        if the answer carries an error, the title and body if it parsed, and 500
        if the call failed. The saved document stays in every case. */
    method Read(slug: string, reply: PageReply) returns (resp: Response)
      requires Valid()
      modifies this
      ensures Valid()
      ensures records == ReadStep(old(records), slug)
      ensures reply.PageError? ==> resp == Failure(404, PageNotFound)
      ensures reply.PageFailed? ==> resp == Failure(500, InternalError)
      ensures reply.Parsed? ==> resp == PageContent(reply.title, reply.html)
    {
      ReadKeepsPositive(records, slug);
      ReadKeepsUniqueKeywords(records, slug);
      records := records + [PageRecord(slug)];
      match reply {
        case PageError => resp := Failure(404, PageNotFound);
        case Parsed(title, html) => resp := PageContent(title, html);
        case PageFailed => resp := Failure(500, InternalError);
      }
    }

    /** `GET /most-searched/:order`: 400 for any order other than `asc` or `desc`
        in some case, with a body that does not depend on the collection;
        otherwise every document, ordered by count in that direction. */
    function MostSearched(order: string): (resp: Response)
      reads this
      ensures ParseOrder(order).None? <==> resp == Failure(400, InvalidOrder)
      ensures ParseOrder(order).Some? ==>
        && resp.RecordList?
        && Ordered(resp.records, ParseOrder(order).value)
        && multiset(resp.records) == multiset(records)
    {
      match ParseOrder(order)
      case None => Failure(400, InvalidOrder)
      case Some(d) => RecordList(SortByCount(records, d))
    }

    /** `GET /admin/dashboard` behind `authenticateAdmin`: the gate's 401 or 400,
        or the top five documents by descending count. */
    function Dashboard(header: Option<string>, verify: string -> Option<Claims>): (resp: Response)
      reads this
      ensures resp.RecordList? <==> !TokenMissing(header) && verify(header.value).Some?
      ensures TokenMissing(header) ==> resp == Failure(401, MissingTokenMessage)
      ensures !TokenMissing(header) && verify(header.value).None? ==> resp == Failure(400, InvalidTokenMessage)
      ensures resp.RecordList? ==> IsTop(resp.records, records, DashboardLimit)
    {
      match AuthenticateAdmin(header, verify)
      case Denied(status, message) => Failure(status, message)
      case Granted(_) => RecordList(TopByCount(records, DashboardLimit))
    }
  }
}
