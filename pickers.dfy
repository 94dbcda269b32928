/**
 * The searchable pickers of the admin pages: a list fetched from the API is
 * narrowed to the rows not already taken and whose name includes the search
 * text, both sides lower-cased.
 */
module Pickers {
  import opened Common
  import opened Seqs
  import opened Strings

  /** A row of a list the page fetches: an id and a display name. */
  datatype Item = Item(id: Id, name: string)

  function NotListed(ids: seq<Id>): Item -> bool
  {
    (x: Item) => x.id !in ids
  }

  function NameMatches(search: string): Item -> bool
  {
    (x: Item) => Contains(ToLower(x.name), ToLower(search))
  }

  /** A picker's options: the fetched rows whose id is not taken and whose name includes the search text, ignoring case. */
  function Offered(items: seq<Item>, taken: seq<Id>, search: string): (r: seq<Item>)
    ensures forall x :: x in r <==> x in items && x.id !in taken && Contains(ToLower(x.name), ToLower(search))
    ensures |r| <= |items|
  {
    var free := Filter(items, NotListed(taken));
    FilterTwice(items, NotListed(taken), NameMatches(search),
      (x: Item) => x.id !in taken && Contains(ToLower(x.name), ToLower(search)));
    Filter(free, NameMatches(search))
  }

  /** An empty search offers every row whose id is not taken, in the fetched order. */
  lemma {:induction false} EmptySearchOffersAll(items: seq<Item>, taken: seq<Id>)
    ensures Offered(items, taken, "") == Filter(items, NotListed(taken))
  {
    forall x: Item ensures NameMatches("")(x) {
      ContainsEmpty(ToLower(x.name));
    }
    FilterAll(Filter(items, NotListed(taken)), NameMatches(""));
  }

  /** The search ignores the case of what is typed. */
  lemma {:induction false} SearchIgnoresCase(items: seq<Item>, taken: seq<Id>, search: string)
    ensures Offered(items, taken, ToLower(search)) == Offered(items, taken, search)
  {
    ToLowerIdempotent(search);
  }

  lemma {:induction false} FilterAll<T(!new)>(s: seq<T>, keep: T -> bool)
    requires forall x :: keep(x)
    ensures Filter(s, keep) == s
  {
    if s != [] {
      FilterAll(s[1..], keep);
      FilterAppend([s[0]], s[1..], keep);
      assert [s[0]] + s[1..] == s;
    }
  }

  /** The "No teams found" line shows exactly when no fetched row is both untaken and matching. */
  function ShowsNoneFound(items: seq<Item>, taken: seq<Id>, search: string): (r: bool)
    ensures r <==> forall x :: x in items && x.id !in taken ==> !Contains(ToLower(x.name), ToLower(search))
  {
    var offered := Offered(items, taken, search);
    assert offered != [] ==> offered[0] in offered;
    |offered| == 0
  }

}
