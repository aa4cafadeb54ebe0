/**
 * The record store: the request list and the review list, kept as the two fields of one
 * object. Saves append, updates change the first record with the id in place, and deletes
 * rebuild a list without the id and keep it only when something was removed.
 */
module Store {
  import opened Wrappers
  import opened Records

  class Database {
    var requests: seq<Request>
    var reviews: seq<Review>

    /** Both lists start empty, as freshly created files do. */
    constructor ()
      ensures requests == [] && reviews == []
    {
      requests := [];
      reviews := [];
    }

    /** `save_request`: the id is one more than the current count; the record goes last. */
    method SaveRequest(s: Submission, now: Timestamp) returns (id: int)
      modifies this
      ensures id == |old(requests)| + 1
      ensures requests == old(requests) + [NewRequest(id, s, now)]
      ensures reviews == old(reviews)
    {
      id := |requests| + 1;
      requests := requests + [NewRequest(id, s, now)];
    }

    /** `update_request`: changes the first record with the id and reports whether there was one. */
    method UpdateRequest(id: int, changes: seq<RequestChange>, now: Timestamp) returns (updated: bool)
      modifies this
      ensures updated <==> exists k :: 0 <= k < |old(requests)| && old(requests)[k].id == id
      ensures requests == UpdatedRequests(old(requests), id, changes, now)
      ensures reviews == old(reviews)
    {
      updated := false;
      var i := 0;
      while i < |requests|
        invariant 0 <= i <= |requests|
        invariant requests == old(requests) && !updated
        invariant forall j :: 0 <= j < i ==> requests[j].id != id
      {
        if requests[i].id == id {
          UpdateFirstMatch(requests, id, changes, now, i);
          requests := requests[i := ApplyRequestChanges(requests[i], changes, now)];
          updated := true;
          break;
        }
        i := i + 1;
      }
      if !updated {
        UpdateTouchesFirstMatchOnly(requests, id, changes, now);
      }
    }

    /** `delete_request`: drops every record with the id; true when something was dropped. */
    method DeleteRequest(id: int) returns (removed: bool)
      modifies this
      ensures removed <==> exists k :: 0 <= k < |old(requests)| && old(requests)[k].id == id
      ensures requests == WithoutRequest(old(requests), id)
      ensures reviews == old(reviews)
    {
      var kept := WithoutRequest(requests, id);
      removed := |kept| < |requests|;
      if removed {
        requests := kept;
      } else {
        FilterAllPass(requests, (x: Request) => x.id != id);
      }
    }

    /** `save_review`: the id is one more than the current count; the review goes last. */
    method SaveReview(userId: int, username: Option<string>, text: string, rating: int, now: Timestamp)
      returns (id: int)
      modifies this
      ensures id == |old(reviews)| + 1
      ensures reviews == old(reviews) + [NewReview(id, userId, username, text, rating, now)]
      ensures requests == old(requests)
    {
      id := |reviews| + 1;
      reviews := reviews + [NewReview(id, userId, username, text, rating, now)];
    }

    /** `update_review_status`: changes the first review with the id; true when there was one. */
    method UpdateReviewStatus(id: int, status: string, messageId: Option<int>, now: Timestamp)
      returns (updated: bool)
      modifies this
      ensures updated <==> exists k :: 0 <= k < |old(reviews)| && old(reviews)[k].id == id
      ensures reviews == ReviewStatusUpdated(old(reviews), id, status, messageId, now)
      ensures requests == old(requests)
    {
      StatusUpdateEffect(reviews, id, status, messageId, now);
      updated := false;
      var i := 0;
      while i < |reviews|
        invariant 0 <= i <= |reviews|
        invariant reviews == old(reviews) && !updated
        invariant forall j :: 0 <= j < i ==> reviews[j].id != id
      {
        if reviews[i].id == id {
          reviews := reviews[i := WithStatus(reviews[i], status, messageId, now)];
          updated := true;
          break;
        }
        i := i + 1;
      }
    }

    /** `update_review`: sets the given fields of the first review with the id. */
    method UpdateReview(id: int, changes: seq<ReviewChange>) returns (updated: bool)
      modifies this
      ensures updated <==> exists k :: 0 <= k < |old(reviews)| && old(reviews)[k].id == id
      ensures reviews == UpdatedReviews(old(reviews), id, changes)
      ensures requests == old(requests)
    {
      UpdatedReviewsFirstMatch(reviews, id, changes);
      updated := false;
      var i := 0;
      while i < |reviews|
        invariant 0 <= i <= |reviews|
        invariant reviews == old(reviews) && !updated
        invariant forall j :: 0 <= j < i ==> reviews[j].id != id
      {
        if reviews[i].id == id {
          reviews := reviews[i := SetReviewFields(reviews[i], changes)];
          updated := true;
          break;
        }
        i := i + 1;
      }
    }

    /** `delete_review`: drops every review with the id; true when something was dropped. */
    method DeleteReview(id: int) returns (removed: bool)
      modifies this
      ensures removed <==> exists k :: 0 <= k < |old(reviews)| && old(reviews)[k].id == id
      ensures reviews == WithoutReview(old(reviews), id)
      ensures requests == old(requests)
    {
      var kept := WithoutReview(reviews, id);
      removed := |kept| < |reviews|;
      if removed {
        reviews := kept;
      } else {
        FilterAllPass(reviews, (x: Review) => x.id != id);
      }
    }
  }

  /**
   * Two saves, a delete of the first request and a third save: the third request gets the
   * id of the second, and a lookup of that id returns the second, not the one just saved.
   */
  method DuplicateIdAfterDelete(a: Submission, b: Submission, c: Submission, now: Timestamp)
    returns (third: int, found: Option<Request>)
    ensures third == 2
    ensures found == Some(NewRequest(2, b, now))
  {
    var db := new Database();
    var first := db.SaveRequest(a, now);
    var second := db.SaveRequest(b, now);
    var removed := db.DeleteRequest(first);
    assert db.requests[0] == NewRequest(2, b, now);
    third := db.SaveRequest(c, now);
    found := FindRequest(db.requests, third);
  }
}
