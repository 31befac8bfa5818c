/**
  The read-side queries over the Analytics collection: the `order` parameter of
  `/most-searched/:order`, `sort({ count: ±1 })`, and `limit(5)` for the admin
  dashboard. The store's sort does not promise an order between equal counts,
  so results are specified as "ordered and a permutation", never as one sequence.
*/
module Ranking {
  import opened Wrappers
  import opened Analytics

  datatype Direction = Ascending | Descending

  /** `a` may stand before `b` in a result sorted by count in direction `d`. */
  predicate InOrder(a: Record, b: Record, d: Direction)
  {
    match d
    case Ascending => a.count <= b.count
    case Descending => a.count >= b.count
  }

  /** Every earlier document may stand before every later one. */
  predicate Ordered(rs: seq<Record>, d: Direction)
  {
    forall i, j :: 0 <= i < j < |rs| ==> InOrder(rs[i], rs[j], d)
  }

  /** Insertion of one document into a result already sorted by count. */
  function Insert(x: Record, rs: seq<Record>, d: Direction): (r: seq<Record>)
    requires Ordered(rs, d)
    ensures Ordered(r, d)
    ensures multiset(r) == multiset(rs) + multiset{x}
  {
    if |rs| == 0 then [x]
    else if InOrder(x, rs[0], d) then
      assert forall j :: 0 <= j < |rs| ==> InOrder(x, rs[j], d);
      ConsOrdered(x, rs, d);
      [x] + rs
    else
      var tail := Insert(x, rs[1..], d);
      assert rs == [rs[0]] + rs[1..];
      HeadPrecedesTail(rs, d);
      PrecedesAll(rs[0], multiset(rs[1..]) + multiset{x}, tail, d);
      ConsOrdered(rs[0], tail, d);
      [rs[0]] + tail
  }

  /** Putting in front of an ordered sequence a document that may precede each
      of its elements keeps it ordered. */
  lemma ConsOrdered(a: Record, s: seq<Record>, d: Direction)
    requires Ordered(s, d)
    requires forall j :: 0 <= j < |s| ==> InOrder(a, s[j], d)
    ensures Ordered([a] + s, d)
  {
    var t := [a] + s;
    forall i, j | 0 <= i < j < |t| ensures InOrder(t[i], t[j], d) {
      if i == 0 {
        assert t[j] == s[j - 1];
      } else {
        assert t[i] == s[i - 1] && t[j] == s[j - 1];
      }
    }
  }

  /** The head of an ordered sequence may precede every member of its tail. */
  lemma HeadPrecedesTail(s: seq<Record>, d: Direction)
    requires Ordered(s, d)
    requires |s| > 0
    ensures forall e :: e in multiset(s[1..]) ==> InOrder(s[0], e, d)
  {
    forall e | e in multiset(s[1..]) ensures InOrder(s[0], e, d) {
      var k :| 0 <= k < |s[1..]| && s[1..][k] == e;
      assert s[k + 1] == e;
    }
  }

  /** A document that may stand before every member of a multiset may stand
      before every element of a sequence holding that multiset. */
  lemma PrecedesAll(a: Record, m: multiset<Record>, s: seq<Record>, d: Direction)
    requires forall e :: e in m ==> InOrder(a, e, d)
    requires multiset(s) == m
    ensures forall j :: 0 <= j < |s| ==> InOrder(a, s[j], d)
  {
    forall j | 0 <= j < |s| ensures InOrder(a, s[j], d) {
      assert s[j] in multiset(s);
    }
  }

  /** `find().sort({ count: d })`: every document, sorted by count in direction `d`. */
  function SortByCount(rs: seq<Record>, d: Direction): (r: seq<Record>)
    ensures Ordered(r, d)
    ensures multiset(r) == multiset(rs)
  {
    if |rs| == 0 then []
    else
      assert rs == [rs[0]] + rs[1..];
      Insert(rs[0], SortByCount(rs[1..], d), d)
  }

  /** The limit the admin dashboard applies to its query. */
  const DashboardLimit: nat := 5

  function Min(a: int, b: int): int
  {
    if a <= b then a else b
  }

  /** `r` is a valid answer to `find().sort({ count: -1 }).limit(k)` over `rs`:
      as many documents as the limit allows, highest counts first, drawn from
      `rs`, and no document left out has a higher count than one returned. */
  predicate IsTop(r: seq<Record>, rs: seq<Record>, k: nat)
  {
    && |r| == Min(k, |rs|)
    && Ordered(r, Descending)
    && multiset(r) <= multiset(rs)
    && forall e :: e in multiset(rs) - multiset(r) ==>
         forall i :: 0 <= i < |r| ==> e.count <= r[i].count
  }

  /** `find().sort({ count: -1 }).limit(k)`. */
  function TopByCount(rs: seq<Record>, k: nat): (r: seq<Record>)
    ensures IsTop(r, rs, k)
  {
    var s := SortByCount(rs, Descending);
    var n := Min(k, |s|);
    PrefixDominatesRest(s, n);
    s[..n]
  }

  /** In a descending sequence, whatever lies past a prefix has a count at most
      that of everything in the prefix. */
  lemma PrefixDominatesRest(s: seq<Record>, n: nat)
    requires Ordered(s, Descending)
    requires n <= |s|
    ensures multiset(s[..n]) <= multiset(s)
    ensures forall e :: e in multiset(s) - multiset(s[..n]) ==>
      forall i :: 0 <= i < n ==> e.count <= s[i].count
  {
    var r := s[..n];
    assert s == r + s[n..];
    assert multiset(s) == multiset(r) + multiset(s[n..]);
    forall e | e in multiset(s) - multiset(r)
      ensures forall i :: 0 <= i < n ==> e.count <= s[i].count
    {
      assert e in s[n..];
      var m :| 0 <= m < |s[n..]| && s[n..][m] == e;
      assert s[n + m] == e;
    }
  }

  /** The lower-case form of an ASCII letter; every other character is its own. */
  function LowerChar(c: char): char
  {
    if 'A' <= c <= 'Z' then (c as int - 'A' as int + 'a' as int) as char else c
  }

  /** The upper-case form of an ASCII letter; every other character is its own. */
  function UpperChar(c: char): char
  {
    if 'a' <= c <= 'z' then (c as int - 'a' as int + 'A' as int) as char else c
  }

  /** `String.prototype.toLowerCase`, restricted to ASCII letters. */
  function ToLowerCase(s: string): string
  {
    seq(|s|, i requires 0 <= i < |s| => LowerChar(s[i]))
  }

  /** `s` spells the lower-case word `w`, each letter in either case. */
  predicate SpellsIgnoringCase(s: string, w: string)
  {
    && |s| == |w|
    && forall i :: 0 <= i < |s| ==> s[i] == w[i] || s[i] == UpperChar(w[i])
  }

  predicate IsLowerWord(w: string)
  {
    forall i :: 0 <= i < |w| ==> 'a' <= w[i] <= 'z'
  }

  /** Lower-casing `s` gives the lower-case word `w` exactly when `s` spells `w`
      in any mix of cases. */
  lemma {:induction false} LowerCaseMatches(s: string, w: string)
    requires IsLowerWord(w)
    ensures ToLowerCase(s) == w <==> SpellsIgnoringCase(s, w)
  {
    if ToLowerCase(s) == w {
      forall i | 0 <= i < |s| ensures s[i] == w[i] || s[i] == UpperChar(w[i]) {
        assert LowerChar(s[i]) == w[i];
      }
    }
    if SpellsIgnoringCase(s, w) {
      forall i | 0 <= i < |s| ensures ToLowerCase(s)[i] == w[i] {
        assert s[i] == w[i] || s[i] == UpperChar(w[i]);
      }
    }
  }

  /** The `order` parameter of `/most-searched/:order`: lower-cased, then only
      `asc` and `desc` are accepted. */
  function ParseOrder(order: string): (d: Option<Direction>)
    ensures d == Some(Ascending) <==> SpellsIgnoringCase(order, "asc")
    ensures d == Some(Descending) <==> SpellsIgnoringCase(order, "desc")
    ensures d == None <==> !SpellsIgnoringCase(order, "asc") && !SpellsIgnoringCase(order, "desc")
  {
    LowerCaseMatches(order, "asc");
    LowerCaseMatches(order, "desc");
    var lowered := ToLowerCase(order);
    if lowered == "asc" then Some(Ascending)
    else if lowered == "desc" then Some(Descending)
    else None
  }

  /** No two documents share a count, and higher counts come first. */
  predicate StrictlyDescending(rs: seq<Record>)
  {
    forall i, j :: 0 <= i < j < |rs| ==> rs[i].count > rs[j].count
  }

  /** The head of a descending sequence has the highest count in it. */
  lemma HeadIsHighest(s: seq<Record>, e: Record)
    requires Ordered(s, Descending)
    requires e in multiset(s)
    ensures s[0].count >= e.count
  {
    var k :| 0 <= k < |s| && s[k] == e;
    if k > 0 { assert InOrder(s[0], s[k], Descending); }
  }

  /** Dropping the head of a sequence drops one copy of it from its multiset. */
  lemma DropHead(s: seq<Record>)
    requires |s| > 0
    ensures multiset(s[1..]) == multiset(s) - multiset{s[0]}
  {
    assert s == [s[0]] + s[1..];
  }

  /** A strictly descending sequence is descending. */
  lemma StrictlyDescendingIsOrdered(s: seq<Record>)
    requires StrictlyDescending(s)
    ensures Ordered(s, Descending)
  {
    forall i, j | 0 <= i < j < |s| ensures InOrder(s[i], s[j], Descending) {
      assert s[i].count > s[j].count;
    }
  }

  /** Two descending orderings of the same documents, one of them without ties,
      start with the same document. */
  lemma SameHead(r: seq<Record>, rs: seq<Record>)
    requires StrictlyDescending(rs)
    requires Ordered(r, Descending)
    requires multiset(r) == multiset(rs)
    requires |r| > 0 && |rs| > 0
    ensures r[0] == rs[0]
  {
    StrictlyDescendingIsOrdered(rs);
    assert rs[0] in multiset(r);
    HeadIsHighest(r, rs[0]);
    assert r[0] in multiset(rs);
    HeadIsHighest(rs, r[0]);
    var k :| 0 <= k < |rs| && rs[k] == r[0];
    assert rs[k].count == rs[0].count;
  }

  /** Ties are the only freedom the store's sort has: when no two documents
      share a count, every descending ordering of them is the same sequence. */
  lemma {:induction false} DistinctCountsDetermineRanking(r: seq<Record>, rs: seq<Record>)
    requires StrictlyDescending(rs)
    requires Ordered(r, Descending)
    requires multiset(r) == multiset(rs)
    ensures r == rs
  {
    assert |r| == |multiset(r)| == |multiset(rs)| == |rs|;
    if |rs| > 0 {
      SameHead(r, rs);
      DropHead(r);
      DropHead(rs);
      assert StrictlyDescending(rs[1..]);
      assert Ordered(r[1..], Descending);
      DistinctCountsDetermineRanking(r[1..], rs[1..]);
      assert r == [r[0]] + r[1..];
      assert rs == [rs[0]] + rs[1..];
    }
  }
}
