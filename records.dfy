/**
 * The records of the store and everything the store computes without changing state:
 * lookups by id (first match), filters by owner and status, the effect of a field
 * update on one record and on the collection, deletion by id, the newest-first listing
 * of approved reviews, and the aggregate statistics.
 */
module Records {
  import opened Wrappers
  import opened Text

  /** A `'%Y-%m-%d %H:%M:%S'` time stamp, taken as given. */
  type Timestamp = string

  const StatusNew := "new"
  const StatusCompleted := "completed"
  const StatusPending := "pending"
  const StatusApproved := "approved"
  const StatusRejected := "rejected"

  /** The share of the economy recorded as commission by the found-price update. */
  const CommissionRate: real := 0.4

  function Min(a: int, b: int): int { if a <= b then a else b }
  function Max(a: int, b: int): int { if a >= b then a else b }

  // ---------------------------------------------------------------- sequences

  /** A list comprehension `[x for x in s if p(x)]`. */
  function Filter<T>(s: seq<T>, p: T -> bool): (r: seq<T>)
    ensures |r| <= |s|
    ensures forall x :: x in r ==> x in s && p(x)
    ensures forall x :: x in s && p(x) ==> x in r
  {
    if s == [] then [] else (if p(s[0]) then [s[0]] else []) + Filter(s[1..], p)
  }

  lemma {:induction false} FilterAppend<T>(a: seq<T>, b: seq<T>, p: T -> bool)
    ensures Filter(a + b, p) == Filter(a, p) + Filter(b, p)
  {
    if a == [] {
      assert a + b == b;
    } else {
      var head := if p(a[0]) then [a[0]] else [];
      assert (a + b)[0] == a[0] && (a + b)[1..] == a[1..] + b;
      calc {
        Filter(a + b, p);
        head + Filter(a[1..] + b, p);
        { FilterAppend(a[1..], b, p); }
        head + (Filter(a[1..], p) + Filter(b, p));
        (head + Filter(a[1..], p)) + Filter(b, p);
        Filter(a, p) + Filter(b, p);
      }
    }
  }

  /** Filtering keeps the length exactly when every element passes. */
  lemma {:induction false} FilterKeepsAll<T>(s: seq<T>, p: T -> bool)
    ensures |Filter(s, p)| == |s| <==> forall i :: 0 <= i < |s| ==> p(s[i])
  {
    if s != [] {
      FilterKeepsAll(s[1..], p);
      assert forall i :: 1 <= i < |s| ==> s[i] == s[1..][i - 1];
    }
  }

  /** Filtering with a predicate every element passes gives back the sequence itself. */
  lemma {:induction false} FilterAllPass<T>(s: seq<T>, p: T -> bool)
    requires forall i :: 0 <= i < |s| ==> p(s[i])
    ensures Filter(s, p) == s
  {
    if s != [] {
      assert forall i :: 1 <= i < |s| ==> s[i] == s[1..][i - 1];
      FilterAllPass(s[1..], p);
      assert s == [s[0]] + s[1..];
    }
  }

  /** The position of the first element whose key is `id`, or -1. */
  function FirstIndex<T>(s: seq<T>, key: T -> int, id: int): (k: int)
    ensures -1 <= k < |s|
    ensures k >= 0 ==> key(s[k]) == id
    ensures forall j :: 0 <= j < |s| && (k < 0 || j < k) ==> key(s[j]) != id
  {
    if s == [] then -1
    else if key(s[0]) == id then 0
    else
      var k := FirstIndex(s[1..], key, id);
      if k < 0 then -1 else k + 1
  }

  /** Appending cannot move a first match that already exists. */
  lemma {:induction false} FirstIndexAppend<T>(a: seq<T>, b: seq<T>, key: T -> int, id: int)
    requires FirstIndex(a, key, id) >= 0
    ensures FirstIndex(a + b, key, id) == FirstIndex(a, key, id)
  {
    assert (a + b)[0] == a[0];
    if key(a[0]) != id {
      assert (a + b)[1..] == a[1..] + b;
      FirstIndexAppend(a[1..], b, key, id);
    }
  }

  // ---------------------------------------------------------------- requests

  /** A stored purchase request; `product_url` and `price_source` are not part of it. */
  datatype Request = Request(
    id: int, userId: int, username: string, product: string, knownPrice: int,
    city: string, contact: string, status: string,
    createdAt: Timestamp, updatedAt: Timestamp,
    foundPrice: Option<int>, economy: Option<int>, commission: Option<real>,
    notes: string)

  /** What the order dialogue hands to the store. */
  datatype Submission = Submission(
    userId: int, username: string, product: string, productUrl: string,
    knownPrice: int, city: string, contact: string, priceSource: string)

  /** The record the store builds for a submission under a given id. */
  function NewRequest(id: int, s: Submission, now: Timestamp): (r: Request)
    ensures r.id == id && r.userId == s.userId && r.knownPrice == s.knownPrice
    ensures r.status == StatusNew && r.createdAt == now && r.updatedAt == now
    ensures r.username == s.username && r.product == s.product && r.city == s.city && r.contact == s.contact
    ensures r.foundPrice == None && r.economy == None && r.commission == None && r.notes == ""
  {
    Request(id, s.userId, s.username, s.product, s.knownPrice, s.city, s.contact,
            StatusNew, now, now, None, None, None, "")
  }

  /** The link and the price source of a submission do not reach the stored record. */
  lemma NewRequestDropsLinkAndSource(id: int, s: Submission, url: string, source: string, now: Timestamp)
    ensures NewRequest(id, s, now) == NewRequest(id, s.(productUrl := url, priceSource := source), now)
  {
  }

  function RequestId(r: Request): int { r.id }

  /** `get_request`: the first record with the id, if any. */
  function FindRequest(rs: seq<Request>, id: int): (r: Option<Request>)
    ensures r.None? <==> forall k :: 0 <= k < |rs| ==> rs[k].id != id
    ensures r.Some? ==> exists k :: 0 <= k < |rs| && rs[k] == r.value && r.value.id == id
                                  && forall j :: 0 <= j < k ==> rs[j].id != id
  {
    var k := FirstIndex(rs, RequestId, id);
    if k < 0 then None else Some(rs[k])
  }

  /** `get_user_requests`. */
  function RequestsOfUser(rs: seq<Request>, userId: int): (r: seq<Request>)
    ensures forall x :: x in r <==> x in rs && x.userId == userId
  {
    Filter(rs, (x: Request) => x.userId == userId)
  }

  /** `get_requests_by_status`. */
  function RequestsByStatus(rs: seq<Request>, status: string): (r: seq<Request>)
    ensures forall x :: x in r <==> x in rs && x.status == status
  {
    Filter(rs, (x: Request) => x.status == status)
  }

  /** A record appended to the collection is counted under its own status only. */
  lemma RequestsByStatusAppend(rs: seq<Request>, r: Request, status: string)
    ensures |RequestsByStatus(rs + [r], status)| == |RequestsByStatus(rs, status)| + if r.status == status then 1 else 0
  {
    FilterAppend(rs, [r], (x: Request) => x.status == status);
    assert [r][1..] == [];
  }

  /** What `delete_request` keeps: every record whose id differs, in order. */
  function WithoutRequest(rs: seq<Request>, id: int): (r: seq<Request>)
    ensures forall x :: x in r <==> x in rs && x.id != id
    ensures |r| < |rs| <==> exists k :: 0 <= k < |rs| && rs[k].id == id
  {
    FilterKeepsAll(rs, (x: Request) => x.id != id);
    Filter(rs, (x: Request) => x.id != id)
  }

  /** The deletion works record by record: it keeps the survivors in their stored order. */
  lemma WithoutRequestAppend(a: seq<Request>, b: seq<Request>, id: int)
    ensures WithoutRequest(a + b, id) == WithoutRequest(a, id) + WithoutRequest(b, id)
  {
    FilterAppend(a, b, (x: Request) => x.id != id);
  }

  /** A single record is kept exactly when its id differs. */
  lemma WithoutRequestOne(x: Request, id: int)
    ensures WithoutRequest([x], id) == if x.id == id then [] else [x]
  {
    assert [x][1..] == [];
  }

  /** One keyword argument of `update_request`; `OtherKey` names a key the record lacks. */
  datatype RequestChange =
    | SetId(int) | SetUserId(int) | SetUsername(string) | SetProduct(string)
    | SetKnownPrice(int) | SetCity(string) | SetContact(string) | SetStatus(string)
    | SetCreatedAt(Timestamp) | SetUpdatedAt(Timestamp) | SetFoundPrice(Option<int>)
    | SetEconomy(Option<int>) | SetCommission(Option<real>) | SetNotes(string)
    | OtherKey(string)

  function SetRequestField(r: Request, c: RequestChange): Request {
    match c
    case SetId(v) => r.(id := v)
    case SetUserId(v) => r.(userId := v)
    case SetUsername(v) => r.(username := v)
    case SetProduct(v) => r.(product := v)
    case SetKnownPrice(v) => r.(knownPrice := v)
    case SetCity(v) => r.(city := v)
    case SetContact(v) => r.(contact := v)
    case SetStatus(v) => r.(status := v)
    case SetCreatedAt(v) => r.(createdAt := v)
    case SetUpdatedAt(v) => r.(updatedAt := v)
    case SetFoundPrice(v) => r.(foundPrice := v)
    case SetEconomy(v) => r.(economy := v)
    case SetCommission(v) => r.(commission := v)
    case SetNotes(v) => r.(notes := v)
    case OtherKey(_) => r
  }

  function SetRequestFields(r: Request, cs: seq<RequestChange>): Request
    decreases |cs|
  {
    if cs == [] then r else SetRequestFields(SetRequestField(r, cs[0]), cs[1..])
  }

  predicate SuppliesFoundPrice(cs: seq<RequestChange>) {
    exists i :: 0 <= i < |cs| && cs[i].SetFoundPrice?
  }

  /**
   * What `update_request` does to the matching record: set the given fields, derive
   * economy and commission from a supplied non-zero found price and a non-zero known
   * price, and refresh `updated_at`.
   */
  function ApplyRequestChanges(r: Request, cs: seq<RequestChange>, now: Timestamp): (u: Request)
    ensures u.updatedAt == now
    ensures !SuppliesFoundPrice(cs) ==> u == SetRequestFields(r, cs).(updatedAt := now)
  {
    var r1 := SetRequestFields(r, cs);
    var r2 :=
      if SuppliesFoundPrice(cs) && r1.knownPrice != 0 && r1.foundPrice.Some? && r1.foundPrice.value != 0 then
        var e := r1.knownPrice - r1.foundPrice.value;
        r1.(economy := Some(e), commission := if e > 0 then Some(e as real * CommissionRate) else r1.commission)
      else r1;
    r2.(updatedAt := now)
  }

  /**
   * Recording a found price: economy is known minus found when both are non-zero, the
   * commission follows only a positive economy, and nothing else but the time stamp moves.
   */
  lemma FoundPriceDerivesEconomy(r: Request, found: Option<int>, now: Timestamp)
    ensures var u := ApplyRequestChanges(r, [SetFoundPrice(found)], now);
      && u.foundPrice == found && u.updatedAt == now
      && u.(foundPrice := r.foundPrice, economy := r.economy, commission := r.commission, updatedAt := r.updatedAt) == r
      && (if found.Some? && found.value != 0 && r.knownPrice != 0 then
            var e := r.knownPrice - found.value;
            u.economy == Some(e) && u.commission == (if e > 0 then Some(e as real * 0.4) else r.commission)
          else u.economy == r.economy && u.commission == r.commission)
  {
    var cs := [SetFoundPrice(found)];
    assert cs[0].SetFoundPrice?;
    assert SetRequestFields(r, cs) == SetRequestFields(r.(foundPrice := found), []);
  }

  /** A key the record does not have changes nothing but the time stamp. */
  lemma UnknownKeyIgnored(r: Request, key: string, now: Timestamp)
    ensures ApplyRequestChanges(r, [OtherKey(key)], now) == r.(updatedAt := now)
  {
    var cs := [OtherKey(key)];
    assert !SuppliesFoundPrice(cs);
    assert SetRequestFields(r, cs) == SetRequestFields(r, []);
  }

  /** `update_request` on the collection: only the first record with the id changes. */
  function UpdatedRequests(rs: seq<Request>, id: int, cs: seq<RequestChange>, now: Timestamp): (r: seq<Request>)
    ensures |r| == |rs|
    ensures forall j :: 0 <= j < |rs| && rs[j].id != id ==> r[j] == rs[j]
  {
    var k := FirstIndex(rs, RequestId, id);
    if k < 0 then rs else rs[k := ApplyRequestChanges(rs[k], cs, now)]
  }

  lemma UpdateTouchesFirstMatchOnly(rs: seq<Request>, id: int, cs: seq<RequestChange>, now: Timestamp)
    ensures (forall k :: 0 <= k < |rs| ==> rs[k].id != id) ==> UpdatedRequests(rs, id, cs, now) == rs
    ensures forall k :: 0 <= k < |rs| && rs[k].id == id && (forall j :: 0 <= j < k ==> rs[j].id != id) ==>
      UpdatedRequests(rs, id, cs, now) == rs[k := ApplyRequestChanges(rs[k], cs, now)]
  {
    forall k | 0 <= k < |rs| && rs[k].id == id && (forall j :: 0 <= j < k ==> rs[j].id != id)
      ensures UpdatedRequests(rs, id, cs, now) == rs[k := ApplyRequestChanges(rs[k], cs, now)]
    {
      UpdateFirstMatch(rs, id, cs, now, k);
    }
  }

  /** The update applies the changes at the first position holding the id. */
  lemma UpdateFirstMatch(rs: seq<Request>, id: int, cs: seq<RequestChange>, now: Timestamp, k: int)
    requires 0 <= k < |rs| && rs[k].id == id && forall j :: 0 <= j < k ==> rs[j].id != id
    ensures UpdatedRequests(rs, id, cs, now) == rs[k := ApplyRequestChanges(rs[k], cs, now)]
  {
    assert RequestId(rs[k]) == id;
  }

  /**
   * Ids are positions plus one only while nothing is deleted: after deleting any record
   * but the last, the next id handed out equals the id of the last surviving record, and
   * a lookup of that id then finds the older record.
   */
  lemma DeleteThenSaveReusesId(rs: seq<Request>, gone: int, s: Submission, now: Timestamp)
    requires forall i :: 0 <= i < |rs| ==> rs[i].id == i + 1
    requires 1 <= gone < |rs|
    ensures var kept := WithoutRequest(rs, gone);
      var added := NewRequest(|kept| + 1, s, now);
      && rs[|rs| - 1] in kept
      && added.id == rs[|rs| - 1].id
      && FindRequest(kept + [added], added.id) == Some(rs[|rs| - 1])
  {
    var kept := WithoutRequest(rs, gone);
    var last := rs[|rs| - 1];
    RemoveUniqueId(rs, gone);
    KeepsLastRequest(rs, gone);
    var added := NewRequest(|kept| + 1, s, now);
    var all := kept + [added];
    var k := |kept| - 1;
    assert kept[k] == last;
    forall j | 0 <= j < k ensures all[j].id != all[k].id {
      KeptIdsDistinct(rs, gone, j, k);
    }
    FindFirstOfId(all, k);
  }

  /** Deleting another id keeps the last record last. */
  lemma KeepsLastRequest(rs: seq<Request>, gone: int)
    requires rs != [] && rs[|rs| - 1].id != gone
    ensures var kept := WithoutRequest(rs, gone); kept != [] && kept[|kept| - 1] == rs[|rs| - 1]
  {
    var p := (x: Request) => x.id != gone;
    var last := rs[|rs| - 1];
    assert rs == rs[..|rs| - 1] + [last];
    FilterAppend(rs[..|rs| - 1], [last], p);
    assert [last][1..] == [];
    assert Filter([last], p) == [last];
  }

  /** A record whose id no earlier record carries is the one the lookup finds. */
  lemma FindFirstOfId(rs: seq<Request>, k: int)
    requires 0 <= k < |rs| && forall j :: 0 <= j < k ==> rs[j].id != rs[k].id
    ensures FindRequest(rs, rs[k].id) == Some(rs[k])
  {
    var i := FirstIndex(rs, RequestId, rs[k].id);
    assert RequestId(rs[k]) == rs[k].id;
    assert i == k;
  }

  /** With ids equal to positions plus one, deleting one id removes exactly one record. */
  lemma RemoveUniqueId(rs: seq<Request>, gone: int)
    requires forall i :: 0 <= i < |rs| ==> rs[i].id == i + 1
    requires 1 <= gone <= |rs|
    ensures |WithoutRequest(rs, gone)| == |rs| - 1
  {
    RemoveUniqueIdFrom(rs, gone, 0);
  }

  lemma {:induction false} RemoveUniqueIdFrom(rs: seq<Request>, gone: int, base: int)
    requires forall i :: 0 <= i < |rs| ==> rs[i].id == base + i + 1
    requires base < gone <= base + |rs|
    ensures |WithoutRequest(rs, gone)| == |rs| - 1
  {
    var tail := rs[1..];
    assert forall i :: 0 <= i < |tail| ==> tail[i].id == base + 1 + i + 1;
    if rs[0].id == gone {
      assert forall k :: 0 <= k < |tail| ==> tail[k].id != gone;
      assert WithoutRequest(rs, gone) == WithoutRequest(tail, gone);
    } else {
      RemoveUniqueIdFrom(tail, gone, base + 1);
      assert WithoutRequest(rs, gone) == [rs[0]] + WithoutRequest(tail, gone);
    }
  }

  /** Records kept by a deletion from a numbered collection are distinct. */
  lemma KeptIdsDistinct(rs: seq<Request>, gone: int, j: int, k: int)
    requires forall i :: 0 <= i < |rs| ==> rs[i].id == i + 1
    requires 1 <= gone <= |rs|
    requires 0 <= j < k < |WithoutRequest(rs, gone)|
    ensures WithoutRequest(rs, gone)[j].id != WithoutRequest(rs, gone)[k].id
  {
    var p := (x: Request) => x.id != gone;
    FilterOfNumbered(rs, p, 0);
    var kept := WithoutRequest(rs, gone);
    assert kept == Filter(rs, p);
  }

  /** Filtering a collection numbered from `base + 1` keeps the ids strictly increasing. */
  lemma {:induction false} FilterOfNumbered(rs: seq<Request>, p: Request -> bool, base: int)
    requires forall i :: 0 <= i < |rs| ==> rs[i].id == base + i + 1
    ensures forall j, k :: 0 <= j < k < |Filter(rs, p)| ==> Filter(rs, p)[j].id < Filter(rs, p)[k].id
    ensures forall x :: x in Filter(rs, p) ==> x.id > base
  {
    if rs != [] {
      FilterOfNumbered(rs[1..], p, base + 1);
    }
  }

  // ---------------------------------------------------------------- reviews

  /** A stored review. */
  datatype Review = Review(
    id: int, userId: int, username: string, reviewText: string, rating: int,
    status: string, createdAt: Timestamp,
    publishedAt: Option<Timestamp>, publishedMessageId: Option<int>,
    adminNotes: string)

  /** A rating outside one to five becomes five. */
  function CoerceRating(rating: int): (r: int)
    ensures 1 <= r <= 5
    ensures 1 <= rating <= 5 ==> r == rating
    ensures !(1 <= rating <= 5) ==> r == 5
  {
    if 1 <= rating <= 5 then rating else 5
  }

  /** The record `save_review` builds under a given id. */
  function NewReview(id: int, userId: int, username: Option<string>, text: string, rating: int, now: Timestamp): (v: Review)
    ensures v.id == id && v.userId == userId && v.username == username.GetOr("") && v.reviewText == text
    ensures (1 <= rating <= 5 ==> v.rating == rating) && (!(1 <= rating <= 5) ==> v.rating == 5)
    ensures v.status == StatusPending && v.createdAt == now
    ensures v.publishedAt == None && v.publishedMessageId == None && v.adminNotes == ""
  {
    Review(id, userId, username.GetOr(""), text, CoerceRating(rating), StatusPending, now, None, None, "")
  }

  function ReviewId(v: Review): int { v.id }

  /** `get_review`: the first review with the id, if any. */
  function FindReview(vs: seq<Review>, id: int): (r: Option<Review>)
    ensures r.None? <==> forall k :: 0 <= k < |vs| ==> vs[k].id != id
    ensures r.Some? ==> exists k :: 0 <= k < |vs| && vs[k] == r.value && r.value.id == id
                                  && forall j :: 0 <= j < k ==> vs[j].id != id
  {
    var k := FirstIndex(vs, ReviewId, id);
    if k < 0 then None else Some(vs[k])
  }

  /** A review appended under an id already in use is hidden from lookups by the older one. */
  lemma AppendedReviewShadowed(vs: seq<Review>, v: Review)
    requires exists k :: 0 <= k < |vs| && vs[k].id == v.id
    ensures FindReview(vs + [v], v.id) == FindReview(vs, v.id)
  {
    var k :| 0 <= k < |vs| && vs[k].id == v.id;
    assert ReviewId(vs[k]) == v.id;
    FirstIndexAppend(vs, [v], ReviewId, v.id);
    var f := FirstIndex(vs, ReviewId, v.id);
    assert (vs + [v])[f] == vs[f];
  }

  /** A review appended under an id no other review has is what lookups of that id return. */
  lemma FreshIdFindsNewReview(vs: seq<Review>, v: Review)
    requires forall k :: 0 <= k < |vs| ==> vs[k].id != v.id
    ensures FindReview(vs + [v], v.id) == Some(v)
  {
    var all := vs + [v];
    assert all[|vs|] == v;
    assert forall k :: 0 <= k < |vs| ==> all[k] == vs[k];
  }

  /** `get_reviews_by_status`. */
  function ReviewsByStatus(vs: seq<Review>, status: string): (r: seq<Review>)
    ensures forall x :: x in r <==> x in vs && x.status == status
  {
    Filter(vs, (x: Review) => x.status == status)
  }

  /** What `delete_review` keeps: every review whose id differs, in order. */
  function WithoutReview(vs: seq<Review>, id: int): (r: seq<Review>)
    ensures forall x :: x in r <==> x in vs && x.id != id
    ensures |r| < |vs| <==> exists k :: 0 <= k < |vs| && vs[k].id == id
  {
    FilterKeepsAll(vs, (x: Review) => x.id != id);
    Filter(vs, (x: Review) => x.id != id)
  }

  /** The deletion works review by review: it keeps the survivors in their stored order. */
  lemma WithoutReviewAppend(a: seq<Review>, b: seq<Review>, id: int)
    ensures WithoutReview(a + b, id) == WithoutReview(a, id) + WithoutReview(b, id)
  {
    FilterAppend(a, b, (x: Review) => x.id != id);
  }

  /** A single review is kept exactly when its id differs. */
  lemma WithoutReviewOne(x: Review, id: int)
    ensures WithoutReview([x], id) == if x.id == id then [] else [x]
  {
    assert [x][1..] == [];
  }

  /** The sort key of the listing: `published_at or created_at`. */
  function SortKey(v: Review): Timestamp {
    if v.publishedAt.Some? && v.publishedAt.value != "" then v.publishedAt.value else v.createdAt
  }

  /** Sort keys never increase along the sequence. */
  predicate NewestFirst(s: seq<Review>) {
    forall i, j :: 0 <= i < j < |s| ==> StrLe(SortKey(s[j]), SortKey(s[i]))
  }

  /** Put `v` before the first element whose key is not above its own (keeps ties in order). */
  function InsertNewest(v: Review, s: seq<Review>): seq<Review> {
    if s == [] || StrLe(SortKey(s[0]), SortKey(v)) then [v] + s else [s[0]] + InsertNewest(v, s[1..])
  }

  /**
   * `sort(key=published_at or created_at, reverse=True)`, an insertion sort: newer keys
   * first, every review kept as many times as it occurs.
   */
  function SortNewestFirst(s: seq<Review>): (r: seq<Review>)
    ensures NewestFirst(r)
    ensures multiset(r) == multiset(s)
  {
    if s == [] then []
    else
      var t := SortNewestFirst(s[1..]);
      InsertNewestOrders(s[0], t);
      InsertNewestPermutes(s[0], t);
      assert s == [s[0]] + s[1..];
      InsertNewest(s[0], t)
  }

  /** Every element of `s` has a key not above `k`. */
  predicate KeysAtMost(s: seq<Review>, k: Timestamp) {
    forall x :: x in s ==> StrLe(SortKey(x), k)
  }

  lemma NewestFirstTail(h: Review, t: seq<Review>)
    requires NewestFirst([h] + t)
    ensures KeysAtMost(t, SortKey(h)) && NewestFirst(t)
  {
    var r := [h] + t;
    assert r[0] == h;
    forall x | x in t ensures StrLe(SortKey(x), SortKey(h)) {
      var j :| 0 <= j < |t| && t[j] == x;
      assert r[j + 1] == x;
    }
    forall i, j | 0 <= i < j < |t| ensures StrLe(SortKey(t[j]), SortKey(t[i])) {
      assert r[i + 1] == t[i] && r[j + 1] == t[j];
    }
  }

  lemma NewestFirstCons(h: Review, t: seq<Review>)
    requires KeysAtMost(t, SortKey(h)) && NewestFirst(t)
    ensures NewestFirst([h] + t)
  {
    var r := [h] + t;
    forall i, j | 0 <= i < j < |r| ensures StrLe(SortKey(r[j]), SortKey(r[i])) {
      assert r[j] == t[j - 1];
      if i > 0 {
        assert r[i] == t[i - 1];
      }
    }
  }

  lemma {:induction false} InsertNewestPermutes(v: Review, s: seq<Review>)
    ensures multiset(InsertNewest(v, s)) == multiset(s) + multiset{v}
  {
    if s != [] && !StrLe(SortKey(s[0]), SortKey(v)) {
      InsertNewestPermutes(v, s[1..]);
      assert s == [s[0]] + s[1..];
    }
  }

  lemma {:induction false} InsertNewestOrders(v: Review, s: seq<Review>)
    requires NewestFirst(s)
    ensures NewestFirst(InsertNewest(v, s))
  {
    if s == [] {
    } else if StrLe(SortKey(s[0]), SortKey(v)) {
      NewestFirstTail(s[0], s[1..]);
      assert s == [s[0]] + s[1..];
      forall x | x in s ensures StrLe(SortKey(x), SortKey(v)) {
        if x != s[0] {
          assert x in s[1..];
          StrLeTrans(SortKey(x), SortKey(s[0]), SortKey(v));
        }
      }
      NewestFirstCons(v, s);
    } else {
      StrLeTotal(SortKey(s[0]), SortKey(v));
      assert s == [s[0]] + s[1..];
      NewestFirstTail(s[0], s[1..]);
      InsertNewestOrders(v, s[1..]);
      InsertNewestPermutes(v, s[1..]);
      var t := InsertNewest(v, s[1..]);
      forall x | x in t ensures StrLe(SortKey(x), SortKey(s[0])) {
        assert x in multiset(t);
      }
      NewestFirstCons(s[0], t);
    }
  }

  /** Python's `s[:limit]`: a negative limit drops that many elements from the end. */
  function Take<T>(s: seq<T>, limit: int): (r: seq<T>)
    ensures |r| == if limit >= 0 then Min(limit, |s|) else Max(0, |s| + limit)
    ensures r == s[..|r|]
  {
    if limit >= 0 then (if limit <= |s| then s[..limit] else s)
    else if |s| + limit > 0 then s[..|s| + limit] else []
  }

  /** `get_approved_reviews(limit)`: approved reviews, newest first, cut to `limit`. */
  function ApprovedReviews(vs: seq<Review>, limit: int): (r: seq<Review>)
    ensures forall v :: v in r ==> v in vs && v.status == StatusApproved
    ensures NewestFirst(r)
    ensures |r| == (var n := |ReviewsByStatus(vs, StatusApproved)|;
                    if limit >= 0 then Min(limit, n) else Max(0, n + limit))
  {
    var approved := ReviewsByStatus(vs, StatusApproved);
    TakeNewest(SortNewestFirst(approved), limit);
    Take(SortNewestFirst(approved), limit)
  }

  /**
   * The listing is made of the newest approved reviews: it takes each approved review at most
   * as often as it is stored, and every approved review left out is no newer than the last shown.
   */
  lemma ApprovedReviewsAreNewest(vs: seq<Review>, limit: int)
    ensures var approved := multiset(ReviewsByStatus(vs, StatusApproved));
      var r := ApprovedReviews(vs, limit);
      && multiset(r) <= approved
      && (r != [] ==> forall v :: v in approved - multiset(r) ==> StrLe(SortKey(v), SortKey(r[|r| - 1])))
  {
    TakeLeavesOlder(SortNewestFirst(ReviewsByStatus(vs, StatusApproved)), limit);
  }

  /** What a cut of a newest-first sequence leaves behind is no newer than the last element kept. */
  lemma TakeLeavesOlder(s: seq<Review>, limit: int)
    requires NewestFirst(s)
    ensures var r := Take(s, limit);
      && multiset(r) <= multiset(s)
      && (r != [] ==> forall v :: v in multiset(s) - multiset(r) ==> StrLe(SortKey(v), SortKey(r[|r| - 1])))
  {
    var r := Take(s, limit);
    var rest := s[|r|..];
    assert s == r + rest;
    assert multiset(s) == multiset(r) + multiset(rest);
    if r != [] {
      forall v | v in multiset(s) - multiset(r) ensures StrLe(SortKey(v), SortKey(r[|r| - 1])) {
        assert v in rest;
        var j :| 0 <= j < |rest| && rest[j] == v;
        assert s[|r| + j] == v && s[|r| - 1] == r[|r| - 1];
      }
    }
  }

  lemma TakeNewest(s: seq<Review>, limit: int)
    requires NewestFirst(s)
    ensures NewestFirst(Take(s, limit))
    ensures forall v :: v in Take(s, limit) ==> v in multiset(s)
  {
    var r := Take(s, limit);
    forall i, j | 0 <= i < j < |r| ensures StrLe(SortKey(r[j]), SortKey(r[i])) {
      assert r[i] == s[i] && r[j] == s[j];
    }
    forall v | v in r ensures v in multiset(s) {
      var i :| 0 <= i < |r| && r[i] == v;
      assert s[i] == v;
    }
  }

  /** What `update_review_status` does to the matching review. */
  function WithStatus(v: Review, status: string, messageId: Option<int>, now: Timestamp): Review {
    if status == StatusApproved then
      v.(status := status, publishedAt := Some(now),
         publishedMessageId := if messageId.Some? && messageId.value != 0 then messageId else v.publishedMessageId)
    else v.(status := status)
  }

  /** `update_review_status` on the collection: only the first review with the id changes. */
  function ReviewStatusUpdated(vs: seq<Review>, id: int, status: string, messageId: Option<int>, now: Timestamp): (r: seq<Review>)
    ensures |r| == |vs|
    ensures forall j :: 0 <= j < |vs| && vs[j].id != id ==> r[j] == vs[j]
  {
    var k := FirstIndex(vs, ReviewId, id);
    if k < 0 then vs else vs[k := WithStatus(vs[k], status, messageId, now)]
  }

  /**
   * The status always changes on the first match; the publication time only on approval;
   * the message id only on approval with a non-zero id; every other review stays.
   */
  lemma StatusUpdateEffect(vs: seq<Review>, id: int, status: string, messageId: Option<int>, now: Timestamp)
    ensures |ReviewStatusUpdated(vs, id, status, messageId, now)| == |vs|
    ensures (forall k :: 0 <= k < |vs| ==> vs[k].id != id) ==> ReviewStatusUpdated(vs, id, status, messageId, now) == vs
    ensures forall k :: 0 <= k < |vs| && vs[k].id == id && (forall j :: 0 <= j < k ==> vs[j].id != id) ==>
      var u := ReviewStatusUpdated(vs, id, status, messageId, now);
      && (forall j :: 0 <= j < |vs| && j != k ==> u[j] == vs[j])
      && u[k].status == status
      && u[k].publishedAt == (if status == StatusApproved then Some(now) else vs[k].publishedAt)
      && u[k].publishedMessageId ==
           (if status == StatusApproved && messageId.Some? && messageId.value != 0 then messageId
            else vs[k].publishedMessageId)
      && u[k].(status := vs[k].status, publishedAt := vs[k].publishedAt,
               publishedMessageId := vs[k].publishedMessageId) == vs[k]
  {
    var f := FirstIndex(vs, ReviewId, id);
    forall k | 0 <= k < |vs| && vs[k].id == id && (forall j :: 0 <= j < k ==> vs[j].id != id)
      ensures f == k
    {
      assert ReviewId(vs[k]) == id;
    }
  }

  /** One keyword argument of `update_review`; `OtherKey` names a key the review lacks. */
  datatype ReviewChange =
    | SetReviewId(int) | SetReviewUserId(int) | SetReviewUsername(string) | SetReviewText(string)
    | SetRating(int) | SetReviewStatus(string) | SetReviewCreatedAt(Timestamp)
    | SetPublishedAt(Option<Timestamp>) | SetPublishedMessageId(Option<int>) | SetAdminNotes(string)
    | OtherReviewKey(string)

  function SetReviewField(v: Review, c: ReviewChange): Review {
    match c
    case SetReviewId(x) => v.(id := x)
    case SetReviewUserId(x) => v.(userId := x)
    case SetReviewUsername(x) => v.(username := x)
    case SetReviewText(x) => v.(reviewText := x)
    case SetRating(x) => v.(rating := x)
    case SetReviewStatus(x) => v.(status := x)
    case SetReviewCreatedAt(x) => v.(createdAt := x)
    case SetPublishedAt(x) => v.(publishedAt := x)
    case SetPublishedMessageId(x) => v.(publishedMessageId := x)
    case SetAdminNotes(x) => v.(adminNotes := x)
    case OtherReviewKey(_) => v
  }

  function SetReviewFields(v: Review, cs: seq<ReviewChange>): Review
    decreases |cs|
  {
    if cs == [] then v else SetReviewFields(SetReviewField(v, cs[0]), cs[1..])
  }

  /** `update_review` on the collection: only the first review with the id changes. */
  function UpdatedReviews(vs: seq<Review>, id: int, cs: seq<ReviewChange>): (r: seq<Review>)
    ensures |r| == |vs|
    ensures forall j :: 0 <= j < |vs| && vs[j].id != id ==> r[j] == vs[j]
  {
    var k := FirstIndex(vs, ReviewId, id);
    if k < 0 then vs else vs[k := SetReviewFields(vs[k], cs)]
  }

  lemma UpdatedReviewsFirstMatch(vs: seq<Review>, id: int, cs: seq<ReviewChange>)
    ensures (forall k :: 0 <= k < |vs| ==> vs[k].id != id) ==> UpdatedReviews(vs, id, cs) == vs
    ensures forall k :: 0 <= k < |vs| && vs[k].id == id && (forall j :: 0 <= j < k ==> vs[j].id != id) ==>
      UpdatedReviews(vs, id, cs) == vs[k := SetReviewFields(vs[k], cs)]
  {
    var f := FirstIndex(vs, ReviewId, id);
    forall k | 0 <= k < |vs| && vs[k].id == id && (forall j :: 0 <= j < k ==> vs[j].id != id)
      ensures f == k
    {
      assert ReviewId(vs[k]) == id;
    }
  }

  /** Changes naming only keys a review lacks leave the review as it was. */
  lemma {:induction false} UnknownReviewKeysIgnored(v: Review, cs: seq<ReviewChange>)
    requires forall i :: 0 <= i < |cs| ==> cs[i].OtherReviewKey?
    ensures SetReviewFields(v, cs) == v
    decreases |cs|
  {
    if cs != [] {
      UnknownReviewKeysIgnored(v, cs[1..]);
    }
  }

  // ---------------------------------------------------------------- statistics

  datatype Statistics = Statistics(
    totalRequests: nat, newRequests: nat, completedRequests: nat,
    totalEconomy: int, totalCommission: real,
    totalReviews: nat, pendingReviews: nat, approvedReviews: nat,
    averageRating: real)

  /** `sum(r['economy'] or 0 ...)`. */
  function EconomySum(rs: seq<Request>): int {
    if rs == [] then 0 else rs[0].economy.GetOr(0) + EconomySum(rs[1..])
  }

  /** `sum(r['commission'] or 0 ...)`. */
  function CommissionSum(rs: seq<Request>): real {
    if rs == [] then 0.0 else rs[0].commission.GetOr(0.0) + CommissionSum(rs[1..])
  }

  /** A missing economy or commission adds nothing to the totals. */
  lemma SumsOfOne(r: Request)
    ensures EconomySum([r]) == (if r.economy.Some? then r.economy.value else 0)
    ensures CommissionSum([r]) == (if r.commission.Some? then r.commission.value else 0.0)
  {
    assert [r][1..] == [];
  }

  function RatingSum(vs: seq<Review>): int {
    if vs == [] then 0 else vs[0].rating + RatingSum(vs[1..])
  }

  lemma {:induction false} EconomySumAppend(a: seq<Request>, b: seq<Request>)
    ensures EconomySum(a + b) == EconomySum(a) + EconomySum(b)
    ensures CommissionSum(a + b) == CommissionSum(a) + CommissionSum(b)
  {
    if a == [] {
      assert a + b == b;
    } else {
      assert (a + b)[0] == a[0] && (a + b)[1..] == a[1..] + b;
      EconomySumAppend(a[1..], b);
    }
  }

  lemma {:induction false} RequestStatusesDisjoint(rs: seq<Request>, a: string, b: string)
    requires a != b
    ensures |RequestsByStatus(rs, a)| + |RequestsByStatus(rs, b)| <= |rs|
  {
    if rs != [] {
      RequestStatusesDisjoint(rs[1..], a, b);
    }
  }

  lemma {:induction false} ReviewStatusesDisjoint(vs: seq<Review>, a: string, b: string)
    requires a != b
    ensures |ReviewsByStatus(vs, a)| + |ReviewsByStatus(vs, b)| <= |vs|
  {
    if vs != [] {
      ReviewStatusesDisjoint(vs[1..], a, b);
    }
  }

  /** The mean of a positive count of values. */
  function Mean(sum: int, count: nat): (m: real)
    requires count > 0
    ensures m * count as real == sum as real
  {
    sum as real / count as real
  }

  /** The mean lies between the bounds of the values it averages. */
  lemma MeanBounds(sum: int, count: nat, lo: int, hi: int)
    requires count > 0 && lo * count <= sum <= hi * count
    ensures lo as real <= Mean(sum, count) <= hi as real
  {
    var m, n := Mean(sum, count), count as real;
    assert (lo * count) as real == lo as real * n;
    assert (hi * count) as real == hi as real * n;
  }

  /** `get_statistics`. */
  function GetStatistics(rs: seq<Request>, vs: seq<Review>): (st: Statistics)
    ensures st.newRequests + st.completedRequests <= st.totalRequests
    ensures st.pendingReviews + st.approvedReviews <= st.totalReviews
    ensures st.totalRequests == |rs| && st.totalReviews == |vs|
    ensures st.newRequests == |RequestsByStatus(rs, StatusNew)|
    ensures st.completedRequests == |RequestsByStatus(rs, StatusCompleted)|
    ensures st.pendingReviews == |ReviewsByStatus(vs, StatusPending)|
    ensures st.approvedReviews == |ReviewsByStatus(vs, StatusApproved)|
    ensures st.totalEconomy == EconomySum(rs) && st.totalCommission == CommissionSum(rs)
    ensures st.averageRating == AverageRating(ReviewsByStatus(vs, StatusApproved))
  {
    var unhandled := RequestsByStatus(rs, StatusNew);
    var done := RequestsByStatus(rs, StatusCompleted);
    var pending := ReviewsByStatus(vs, StatusPending);
    var approved := ReviewsByStatus(vs, StatusApproved);
    RequestStatusesDisjoint(rs, StatusNew, StatusCompleted);
    ReviewStatusesDisjoint(vs, StatusPending, StatusApproved);
    Statistics(
      |rs|, |unhandled|, |done|, EconomySum(rs), CommissionSum(rs),
      |vs|, |pending|, |approved|, AverageRating(approved))
  }

  /** The mean rating, or `0` when there is nothing to average. */
  function AverageRating(vs: seq<Review>): (m: real)
    ensures vs == [] ==> m == 0.0
    ensures vs != [] ==> m * |vs| as real == RatingSum(vs) as real
  {
    if vs == [] then 0.0 else Mean(RatingSum(vs), |vs|)
  }

  /** Saving a request adds one to the total and to the new count and leaves the sums. */
  lemma StatisticsAfterSave(rs: seq<Request>, vs: seq<Review>, id: int, s: Submission, now: Timestamp)
    ensures var before := GetStatistics(rs, vs);
      GetStatistics(rs + [NewRequest(id, s, now)], vs)
        == before.(totalRequests := before.totalRequests + 1, newRequests := before.newRequests + 1)
  {
    var r := NewRequest(id, s, now);
    RequestsByStatusAppend(rs, r, StatusNew);
    RequestsByStatusAppend(rs, r, StatusCompleted);
    EconomySumAppend(rs, [r]);
    assert EconomySum([r]) == 0 && CommissionSum([r]) == 0.0;
  }

  /** A negative economy lowers the total economy rather than being skipped. */
  lemma NegativeEconomyCounts(rs: seq<Request>, r: Request, vs: seq<Review>)
    requires r.economy.Some? && r.economy.value < 0
    ensures GetStatistics(rs + [r], vs).totalEconomy < GetStatistics(rs, vs).totalEconomy
  {
    EconomySumAppend(rs, [r]);
  }

  /** When every approved rating is between one and five, so is their mean. */
  lemma AverageWithinStars(vs: seq<Review>)
    requires forall v :: v in vs && v.status == StatusApproved ==> 1 <= v.rating <= 5
    requires exists v :: v in vs && v.status == StatusApproved
    ensures 1.0 <= GetStatistics([], vs).averageRating <= 5.0
  {
    var approved := ReviewsByStatus(vs, StatusApproved);
    var v :| v in vs && v.status == StatusApproved;
    assert v in approved;
    RatingSumBounds(approved);
    MeanBounds(RatingSum(approved), |approved|, 1, 5);
  }

  lemma {:induction false} RatingSumBounds(vs: seq<Review>)
    requires forall v :: v in vs ==> 1 <= v.rating <= 5
    ensures |vs| <= RatingSum(vs) <= 5 * |vs|
  {
    if vs != [] {
      assert vs[0] in vs;
      RatingSumBounds(vs[1..]);
    }
  }

  /** No approved review: the mean is zero; approved ratings four and five: 4.5. */
  lemma AverageCases(a: Review, b: Review, p: Review)
    requires a.status == StatusApproved && a.rating == 4
    requires b.status == StatusApproved && b.rating == 5
    requires p.status == StatusPending
    ensures GetStatistics([], [p]).averageRating == 0.0
    ensures GetStatistics([], [a, b]).averageRating == 4.5
  {
    assert ReviewsByStatus([p], StatusApproved) == [];
    var two := [a, b];
    assert two[1..] == [b];
    assert ReviewsByStatus(two, StatusApproved) == [a, b];
    assert [b][1..] == [];
    assert RatingSum([b]) == 5;
    assert RatingSum([a, b]) == 9;
  }
}
