/** The query `getPosts` sends: the name/value pairs it appends to a
    `URLSearchParams`, one per truthy parameter, in a fixed order. */
module BlogQuery {
  import opened Wrappers
  import opened JsNumber
  import opened BlogTypes
  import opened Seqs

  /** The parameter names, in the order `getPosts` appends them. */
  const Keys: seq<string> := ["page", "per_page", "search", "categories", "tags", "author", "orderby", "order"]

  predicate Distinct(keys: seq<string>) {
    forall i, j :: 0 <= i < j < |keys| ==> keys[i] != keys[j]
  }

  lemma KeysDistinct()
    ensures Distinct(Keys)
  {
  }

  /** A number is sent when it is truthy, i.e. not 0. */
  function NumberSlot(v: Option<int>): Option<string> {
    if v.Some? && v.value != 0 then Some(IntToString(v.value)) else None
  }

  /** A string is sent when it is not empty. */
  function TextSlot(v: Option<string>): Option<string> {
    if v.Some? && v.value != "" then v else None
  }

  /** An id list is sent, comma-joined, when it has a `length`. */
  function ListSlot(v: Option<seq<int>>): Option<string> {
    if v.Some? && |v.value| > 0 then Some(JoinInts(v.value)) else None
  }

  function OrderBySlot(v: Option<OrderBy>): Option<string> {
    if v.Some? then Some(v.value.Name()) else None
  }

  function OrderSlot(v: Option<Order>): Option<string> {
    if v.Some? then Some(v.value.Name()) else None
  }

  /** What each parameter contributes, position by position along `Keys`. */
  function Slots(p: Params): (r: seq<Option<string>>)
    ensures |r| == |Keys|
  {
    [NumberSlot(p.page), NumberSlot(p.perPage), TextSlot(p.search),
     ListSlot(p.categories), ListSlot(p.tags), NumberSlot(p.author),
     OrderBySlot(p.orderBy), OrderSlot(p.order)]
  }

  /** The pairs for the slots that hold a value, in key order. */
  function Present(keys: seq<string>, slots: seq<Option<string>>): seq<(string, string)>
    requires |keys| == |slots|
  {
    if keys == [] then []
    else (if slots[0].Some? then [(keys[0], slots[0].value)] else []) + Present(keys[1..], slots[1..])
  }

  /** The contents of the `URLSearchParams` that `getPosts` builds. */
  function Query(p: Params): seq<(string, string)> {
    Present(Keys, Slots(p))
  }

  /** `searchParams.get(name)`: the first value under `name`. */
  function Lookup(q: seq<(string, string)>, name: string): Option<string> {
    if q == [] then None
    else if q[0].0 == name then Some(q[0].1)
    else Lookup(q[1..], name)
  }

  function Names(q: seq<(string, string)>): (r: seq<string>)
    ensures |r| == |q|
    ensures forall i :: 0 <= i < |q| ==> r[i] == q[i].0
  {
    if q == [] then [] else [q[0].0] + Names(q[1..])
  }

  lemma {:induction false} PresentNames(keys: seq<string>, slots: seq<Option<string>>)
    requires |keys| == |slots|
    ensures forall e :: e in Present(keys, slots) ==> e.0 in keys
    ensures IsSubsequence(Names(Present(keys, slots)), keys)
    decreases |keys|
  {
    if keys != [] {
      PresentNames(keys[1..], slots[1..]);
      var rest := Present(keys[1..], slots[1..]);
      if slots[0].Some? {
        var q := [(keys[0], slots[0].value)] + rest;
        assert Present(keys, slots) == q;
        assert Names(q) == [keys[0]] + Names(rest);
        assert Names(q)[1..] == Names(rest);
      } else {
        assert Present(keys, slots) == rest;
        if Names(rest) != [] {
          assert IsSubsequence(Names(rest), keys[1..]);
        }
      }
    }
  }

  lemma {:induction false} LookupMissing(q: seq<(string, string)>, name: string)
    requires forall e :: e in q ==> e.0 != name
    ensures Lookup(q, name) == None
    decreases |q|
  {
    if q != [] {
      assert q[0] in q;
      LookupMissing(q[1..], name);
    }
  }

  lemma {:induction false} PresentLookup(keys: seq<string>, slots: seq<Option<string>>, i: nat)
    requires |keys| == |slots| && i < |keys| && Distinct(keys)
    ensures Lookup(Present(keys, slots), keys[i]) == slots[i]
    decreases |keys|
  {
    var rest := Present(keys[1..], slots[1..]);
    var q := Present(keys, slots);
    if i == 0 {
      if slots[0].None? {
        assert q == rest;
        PresentNames(keys[1..], slots[1..]);
        forall e | e in rest ensures e.0 != keys[0] {
          var k :| 0 <= k < |keys[1..]| && keys[1..][k] == e.0;
          assert keys[k + 1] == e.0;
        }
        LookupMissing(rest, keys[0]);
      }
    } else {
      assert Distinct(keys[1..]) by {
        forall a, b | 0 <= a < b < |keys[1..]| ensures keys[1..][a] != keys[1..][b] {
          assert keys[1..][a] == keys[a + 1] && keys[1..][b] == keys[b + 1];
        }
      }
      PresentLookup(keys[1..], slots[1..], i - 1);
      assert keys[1..][i - 1] == keys[i];
      assert keys[0] != keys[i];
      if slots[0].Some? {
        assert q == [(keys[0], slots[0].value)] + rest;
        assert q[0].0 != keys[i] && q[1..] == rest;
      } else {
        assert q == rest;
      }
    }
  }

  /** Each name is present exactly when its parameter is truthy, with the
      text the parameter turns into. */
  lemma QueryLookup(p: Params, i: nat)
    requires i < |Keys|
    ensures Lookup(Query(p), Keys[i]) == Slots(p)[i]
  {
    KeysDistinct();
    PresentLookup(Keys, Slots(p), i);
  }

  /** The names come in the fixed order, each at most once. */
  lemma QueryOrder(p: Params)
    ensures IsSubsequence(Names(Query(p)), Keys)
    ensures forall e :: e in Query(p) ==> e.0 in Keys
  {
    PresentNames(Keys, Slots(p));
  }

  // ---------------------------------------------------------------------
  // Reading a query back

  function AsInt(v: Option<string>): Option<int> {
    if v.None? then None
    else match ParseInt(v.value)
      case Finite(n) => Some(n)
      case NaN => None
  }

  function AsInts(v: Option<string>): Option<seq<int>> {
    if v.None? then None
    else
      var ns := ParseInts(v.value);
      if forall i :: 0 <= i < |ns| ==> ns[i].Finite? then Some(seq(|ns|, i requires 0 <= i < |ns| => ns[i].value))
      else None
  }

  function AsOrderBy(v: Option<string>): Option<OrderBy> {
    if v == Some("date") then Some(ByDate)
    else if v == Some("modified") then Some(ByModified)
    else if v == Some("title") then Some(ByTitle)
    else if v == Some("author") then Some(ByAuthor)
    else None
  }

  function AsOrder(v: Option<string>): Option<Order> {
    if v == Some("asc") then Some(Asc) else if v == Some("desc") then Some(Desc) else None
  }

  /** The parameters a query carries, as the API would read them. */
  function DecodeQuery(q: seq<(string, string)>): Params {
    Params(
      AsInt(Lookup(q, "page")), AsInt(Lookup(q, "per_page")), Lookup(q, "search"),
      AsInts(Lookup(q, "categories")), AsInts(Lookup(q, "tags")), AsInt(Lookup(q, "author")),
      AsOrderBy(Lookup(q, "orderby")), AsOrder(Lookup(q, "order")))
  }

  /** `p` with every falsy field (0, "", []) dropped: what a query can carry. */
  function Truthy(p: Params): Params {
    Params(
      if p.page == Some(0) then None else p.page,
      if p.perPage == Some(0) then None else p.perPage,
      if p.search == Some("") then None else p.search,
      if p.categories == Some([]) then None else p.categories,
      if p.tags == Some([]) then None else p.tags,
      if p.author == Some(0) then None else p.author,
      p.orderBy, p.order)
  }

  lemma NumberSlotRoundTrip(v: Option<int>)
    ensures AsInt(NumberSlot(v)) == (if v == Some(0) then None else v)
  {
    if v.Some? && v.value != 0 {
      ParseIntOfIntToStringAlone(v.value);
    }
  }

  lemma AsIntsOfFinite(s: string, xs: seq<int>)
    requires |ParseInts(s)| == |xs|
    requires forall i :: 0 <= i < |xs| ==> ParseInts(s)[i] == Finite(xs[i])
    ensures AsInts(Some(s)) == Some(xs)
  {
    var ns := ParseInts(s);
    var vs := seq(|ns|, i requires 0 <= i < |ns| => ns[i].value);
    assert vs == xs;
  }

  lemma ListSlotRoundTrip(v: Option<seq<int>>)
    ensures AsInts(ListSlot(v)) == (if v == Some([]) then None else v)
  {
    if v.Some? && |v.value| > 0 {
      JoinIntsRoundTrip(v.value);
      AsIntsOfFinite(JoinInts(v.value), v.value);
    }
  }

  /** `QueryLookup`, name by name. */
  lemma QueryFields(p: Params)
    ensures Lookup(Query(p), "page") == NumberSlot(p.page)
    ensures Lookup(Query(p), "per_page") == NumberSlot(p.perPage)
    ensures Lookup(Query(p), "search") == TextSlot(p.search)
    ensures Lookup(Query(p), "categories") == ListSlot(p.categories)
    ensures Lookup(Query(p), "tags") == ListSlot(p.tags)
    ensures Lookup(Query(p), "author") == NumberSlot(p.author)
    ensures Lookup(Query(p), "orderby") == OrderBySlot(p.orderBy)
    ensures Lookup(Query(p), "order") == OrderSlot(p.order)
  {
    QueryLookup(p, 0);
    QueryLookup(p, 1);
    QueryLookup(p, 2);
    QueryLookup(p, 3);
    QueryLookup(p, 4);
    QueryLookup(p, 5);
    QueryLookup(p, 6);
    QueryLookup(p, 7);
  }

  lemma OrderSlotsRoundTrip(p: Params)
    ensures AsOrderBy(OrderBySlot(p.orderBy)) == p.orderBy
    ensures AsOrder(OrderSlot(p.order)) == p.order
  {
  }

  /** Every truthy parameter survives the trip through the query, and
      nothing else is in it. */
  lemma QueryRoundTrip(p: Params)
    ensures DecodeQuery(Query(p)) == Truthy(p)
  {
    var q := Query(p);
    QueryFields(p);
    NumberSlotRoundTrip(p.page);
    NumberSlotRoundTrip(p.perPage);
    NumberSlotRoundTrip(p.author);
    ListSlotRoundTrip(p.categories);
    ListSlotRoundTrip(p.tags);
    OrderSlotsRoundTrip(p);
    var d := DecodeQuery(q);
    var t := Truthy(p);
    assert d.page == t.page && d.perPage == t.perPage && d.author == t.author;
    assert d.search == t.search;
    assert d.categories == t.categories && d.tags == t.tags;
    assert d.orderBy == t.orderBy && d.order == t.order;
  }
}
