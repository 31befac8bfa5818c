/**
  Clients of the handlers that use only their contracts: request sequences a
  user of the backend would send, and what they answer.
*/
module Scenarios {
  import opened Wrappers
  import opened Analytics
  import opened Ranking
  import opened AdminAuth
  import opened Server

  /** The collection after searching "cat" twice and "dog" once, starting empty. */
  lemma CatCatDog()
    ensures SearchStep(SearchStep(SearchStep([], "cat"), "cat"), "dog")
         == [Record(Some("cat"), None, 2), Record(Some("dog"), None, 1)]
  {
    var one := SearchStep([], "cat");
    assert one == [KeywordRecord("cat")];
    assert IsFirstMatch(one, "cat", 0);
    var two := SearchStep(one, "cat");
    assert two == [Record(Some("cat"), None, 2)];
    assert !HasKeyword(two, "dog");
  }

  /** The only descending ordering of cat at 2 and dog at 1. */
  lemma CatDogRanking(r: seq<Record>)
    requires Ordered(r, Descending)
    requires multiset(r) == multiset([Record(Some("cat"), None, 2), Record(Some("dog"), None, 1)])
    ensures r == [Record(Some("cat"), None, 2), Record(Some("dog"), None, 1)]
  {
    var catDog := [Record(Some("cat"), None, 2), Record(Some("dog"), None, 1)];
    assert StrictlyDescending(catDog);
    DistinctCountsDetermineRanking(r, catDog);
  }

  /** `DESC` is a valid order: the descending one. */
  lemma UpperCaseDescAccepted()
    ensures ParseOrder("DESC") == Some(Descending)
  {
    assert SpellsIgnoringCase("DESC", "desc");
  }

  /** Searching "cat" twice and "dog" once on an empty collection, then asking
      for `/most-searched/DESC`, gives cat at 2 before dog at 1, whatever the
      encyclopedia answered to the searches. */
  method SearchThenRank(reply: SearchReply) returns (resp: Response)
    ensures resp == RecordList([Record(Some("cat"), None, 2), Record(Some("dog"), None, 1)])
  {
    var store := new AnalyticsCollection();
    var _ := store.Search("cat", reply);
    var _ := store.Search("cat", reply);
    var _ := store.Search("dog", reply);
    CatCatDog();
    UpperCaseDescAccepted();
    resp := store.MostSearched("DESC");
    CatDogRanking(resp.records);
  }

  /** Reading a page the encyclopedia does not have answers 404, yet the read is
      counted: an admin who logs in and opens the dashboard sees its document. */
  method MissingPageIsCounted(slug: string, sign: Claims -> string, verify: string -> Option<Claims>)
    returns (read: Response, dashboard: Response)
    requires forall c :: verify(sign(c)) == Some(c)
    requires forall c :: sign(c) != ""
    ensures read == Failure(404, PageNotFound)
    ensures dashboard == RecordList([PageRecord(slug)])
  {
    var store := new AnalyticsCollection();
    read := store.Read(slug, PageError);
    var token := Login(sign);
    LoginTokenPassesGate(sign, verify);
    dashboard := store.Dashboard(Some(token), verify);
    var top := dashboard.records;
    assert |top| == 1;
    assert top[0] in multiset([PageRecord(slug)]);
  }
}
