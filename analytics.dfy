/**
  The Analytics collection: its documents, the lookup `/search` does with
  `findOne({ keyword: term })`, and the change a search or a page read makes
  to the collection, as functions over the sequence of documents.
*/
module Analytics {
  import opened Wrappers

  /** One Analytics document. `/search` fills `keyword`, `/read` fills `page`;
      the timestamp is not modelled. */
  datatype Record = Record(keyword: Option<string>, page: Option<string>, count: int)

  /** The schema default of `count`. */
  const DefaultCount: int := 1

  /** The document `/search` creates for a term seen for the first time. */
  function KeywordRecord(term: string): Record
  {
    Record(Some(term), None, DefaultCount)
  }

  /** The document `/read` creates on every call. */
  function PageRecord(slug: string): Record
  {
    Record(None, Some(slug), DefaultCount)
  }

  /** Some document of `rs` has `term` as its keyword. */
  predicate HasKeyword(rs: seq<Record>, term: string)
  {
    exists i :: 0 <= i < |rs| && rs[i].keyword == Some(term)
  }

  /** `i` is the position of the first document whose keyword is `term`. */
  predicate IsFirstMatch(rs: seq<Record>, term: string, i: int)
  {
    && 0 <= i < |rs|
    && rs[i].keyword == Some(term)
    && forall j :: 0 <= j < i ==> rs[j].keyword != Some(term)
  }

  /** `findOne({ keyword: term })`: the position of the first matching document. */
  function FindKeyword(rs: seq<Record>, term: string): (r: Option<nat>)
    ensures r.Some? ==> IsFirstMatch(rs, term, r.value)
    ensures r.None? <==> !HasKeyword(rs, term)
  {
    if |rs| == 0 then None
    else if rs[0].keyword == Some(term) then Some(0)
    else match FindKeyword(rs[1..], term)
      case Some(i) => Some(i + 1)
      case None => None
  }

  /** The collection after `/search?term=term` has written its counter: the first
      document with that keyword gains one, or a fresh document with count 1 is
      appended when there is none. */
  function SearchStep(rs: seq<Record>, term: string): (rs': seq<Record>)
    ensures forall i {:trigger IsFirstMatch(rs, term, i)} :: IsFirstMatch(rs, term, i) ==>
      && |rs'| == |rs|
      && rs'[i] == rs[i].(count := rs[i].count + 1)
      && forall j :: 0 <= j < |rs| && j != i ==> rs'[j] == rs[j]
    ensures !HasKeyword(rs, term) ==> rs' == rs + [KeywordRecord(term)]
  {
    match FindKeyword(rs, term)
    case Some(i) => rs[i := rs[i].(count := rs[i].count + 1)]
    case None => rs + [KeywordRecord(term)]
  }

  /** The collection after `/read/slug` has written its document. */
  function ReadStep(rs: seq<Record>, slug: string): (rs': seq<Record>)
    ensures |rs'| == |rs| + 1
    ensures rs'[..|rs|] == rs
    ensures rs'[|rs|] == Record(None, Some(slug), 1)
  {
    rs + [PageRecord(slug)]
  }

  /** The number of searches recorded for `term`: the count of its first document, or 0. */
  function SearchCount(rs: seq<Record>, term: string): int
  {
    match FindKeyword(rs, term)
    case Some(i) => rs[i].count
    case None => 0
  }

  /** Every counter is at least 1. */
  predicate AllPositive(rs: seq<Record>)
  {
    forall i :: 0 <= i < |rs| ==> rs[i].count >= 1
  }

  /** No two documents carry the same keyword. */
  predicate UniqueKeywords(rs: seq<Record>)
  {
    forall i, j :: 0 <= i < j < |rs| && rs[i].keyword.Some? ==> rs[i].keyword != rs[j].keyword
  }

  /** A search always leaves the collection with a document for its term. */
  lemma SearchRecordsTerm(rs: seq<Record>, term: string)
    ensures HasKeyword(SearchStep(rs, term), term)
    ensures |SearchStep(rs, term)| == |rs| + (if HasKeyword(rs, term) then 0 else 1)
  {
    var rs' := SearchStep(rs, term);
    match FindKeyword(rs, term)
    case Some(i) =>
      assert IsFirstMatch(rs, term, i);
      assert rs'[i].keyword == Some(term);
    case None =>
      assert rs'[|rs|].keyword == Some(term);
  }

  /** Sequential searches of one term raise its counter by exactly one each. */
  lemma SearchIncrementsCount(rs: seq<Record>, term: string)
    ensures SearchCount(SearchStep(rs, term), term) == SearchCount(rs, term) + 1
  {
    var rs' := SearchStep(rs, term);
    match FindKeyword(rs, term)
    case Some(i) =>
      assert IsFirstMatch(rs, term, i);
      assert IsFirstMatch(rs', term, i);
      FirstMatchUnique(rs', term, i, FindKeyword(rs', term));
    case None =>
      assert IsFirstMatch(rs', term, |rs|);
      FirstMatchUnique(rs', term, |rs|, FindKeyword(rs', term));
  }

  lemma FirstMatchUnique(rs: seq<Record>, term: string, i: int, found: Option<nat>)
    requires IsFirstMatch(rs, term, i)
    requires found == FindKeyword(rs, term)
    ensures found == Some(i)
  {
    assert rs[i].keyword == Some(term);
  }

  /** A search of one term leaves the counter of every other term as it was. */
  lemma SearchLeavesOtherTerms(rs: seq<Record>, term: string, other: string)
    requires term != other
    ensures SearchCount(SearchStep(rs, term), other) == SearchCount(rs, other)
  {
    var rs' := SearchStep(rs, term);
    match FindKeyword(rs, term)
    case Some(i) =>
      assert IsFirstMatch(rs, term, i);
      forall j | 0 <= j < |rs|
        ensures rs'[j].keyword == rs[j].keyword
      {
        if j != i { assert rs'[j] == rs[j]; }
      }
      SameKeywordsSameLookup(rs, rs', other);
      var found := FindKeyword(rs, other);
      if found.Some? {
        assert found.value != i;
      }
    case None =>
      AppendedOtherKeyword(rs, KeywordRecord(term), other);
  }

  /** Two collections whose documents carry the same keywords, position by
      position, answer every keyword lookup alike. */
  lemma SameKeywordsSameLookup(a: seq<Record>, b: seq<Record>, term: string)
    requires |a| == |b|
    requires forall j :: 0 <= j < |a| ==> a[j].keyword == b[j].keyword
    ensures FindKeyword(a, term) == FindKeyword(b, term)
  {
    match FindKeyword(a, term)
    case Some(i) =>
      assert IsFirstMatch(b, term, i);
      FirstMatchUnique(b, term, i, FindKeyword(b, term));
    case None =>
      assert forall j :: 0 <= j < |b| ==> b[j].keyword == a[j].keyword;
  }

  /** Appending a document whose keyword is not `term` does not change what the
      lookup of `term` finds, nor the counter it reads. */
  lemma AppendedOtherKeyword(rs: seq<Record>, d: Record, term: string)
    requires d.keyword != Some(term)
    ensures FindKeyword(rs + [d], term) == FindKeyword(rs, term)
    ensures SearchCount(rs + [d], term) == SearchCount(rs, term)
  {
    var rs' := rs + [d];
    match FindKeyword(rs, term)
    case Some(i) =>
      assert IsFirstMatch(rs', term, i);
      FirstMatchUnique(rs', term, i, FindKeyword(rs', term));
    case None =>
      assert forall j :: 0 <= j < |rs| ==> rs'[j] == rs[j];
  }

  /** A page read never touches a search counter. */
  lemma ReadLeavesSearchCounts(rs: seq<Record>, slug: string, term: string)
    ensures SearchCount(ReadStep(rs, slug), term) == SearchCount(rs, term)
  {
    AppendedOtherKeyword(rs, PageRecord(slug), term);
  }

  /** Counters created at 1 and only ever incremented stay positive under a search. */
  lemma SearchKeepsPositive(rs: seq<Record>, term: string)
    requires AllPositive(rs)
    ensures AllPositive(SearchStep(rs, term))
  {
    var rs' := SearchStep(rs, term);
    match FindKeyword(rs, term)
    case Some(i) =>
      assert IsFirstMatch(rs, term, i);
      forall j | 0 <= j < |rs'| ensures rs'[j].count >= 1 {
        if j != i { assert rs'[j] == rs[j]; }
      }
    case None =>
  }

  /** Counters stay positive under a page read. */
  lemma ReadKeepsPositive(rs: seq<Record>, slug: string)
    requires AllPositive(rs)
    ensures AllPositive(ReadStep(rs, slug))
  {
  }

  /** Find-or-increment keeps at most one document per keyword. */
  lemma SearchKeepsUniqueKeywords(rs: seq<Record>, term: string)
    requires UniqueKeywords(rs)
    ensures UniqueKeywords(SearchStep(rs, term))
  {
    var rs' := SearchStep(rs, term);
    match FindKeyword(rs, term)
    case Some(i) =>
      assert IsFirstMatch(rs, term, i);
      forall j | 0 <= j < |rs| ensures rs'[j].keyword == rs[j].keyword {
        if j != i { assert rs'[j] == rs[j]; }
      }
    case None =>
      forall i, j | 0 <= i < j < |rs'| && rs'[i].keyword.Some?
        ensures rs'[i].keyword != rs'[j].keyword
      {
        if j == |rs| {
          assert rs'[i] == rs[i];
          assert rs[i].keyword != Some(term);
        } else {
          assert rs'[i] == rs[i] && rs'[j] == rs[j];
        }
      }
  }

  /** A page read adds a document without a keyword, so keyword uniqueness survives it. */
  lemma ReadKeepsUniqueKeywords(rs: seq<Record>, slug: string)
    requires UniqueKeywords(rs)
    ensures UniqueKeywords(ReadStep(rs, slug))
  {
  }

  /** Two reads of one page leave two separate documents for it, each at count 1:
      page reads are never merged into an existing document. */
  lemma ReadNeverMerges(rs: seq<Record>, slug: string)
    ensures var rs' := ReadStep(ReadStep(rs, slug), slug);
      && |rs'| == |rs| + 2
      && rs'[|rs|] == rs'[|rs| + 1] == Record(None, Some(slug), 1)
      && rs'[..|rs|] == rs
  {
  }
}
