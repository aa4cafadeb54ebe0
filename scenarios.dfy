/**
 * Whole conversations played out on a fresh store, each stating what ends up saved.
 */
module Scenarios {
  import opened Wrappers
  import opened Text
  import opened Config
  import opened Records
  import opened Store
  import opened Pricing
  import opened Dialogue

  /** A price typed as "70000" is read as seventy thousand, inside the accepted range. */
  lemma SeventyThousand(price: string)
    requires price == "70000"
    ensures KeepDigits(Strip(price)) != [] && DigitsValue(KeepDigits(Strip(price))) == 70000
    ensures InRange(70000)
  {
    StripClean(price);
    assert NatToDigits(7) == "7";
    assert NatToDigits(70) == "70";
    assert NatToDigits(700) == "700";
    assert NatToDigits(7000) == "7000";
    assert NatToDigits(70000) == "70000";
    DigitsRoundTrip(70000);
  }

  /** A number typed while the link is awaited goes to the manual price handler. */
  lemma NumberIsNotRouted(price: string)
    requires price == "70000"
    ensures !RoutesToLink(price)
  {
    assert price[0] != 'h';
  }

  /** A link to an unknown shop, `https://shop.example/phone`, routes to the link handler and passes its check. */
  lemma UnknownShopRoutes(url: string)
    requires url == "https://shop.example/phone"
    ensures RoutesToLink(url) && LooksLikeLink(Strip(url))
  {
    assert url[..8] == "https://";
    RoutedTextPassesLinkCheck(url);
  }

  /** That link carries no surrounding whitespace. */
  lemma UnknownShopTrimmed(url: string)
    requires url == "https://shop.example/phone"
    ensures Strip(url) == url
  {
    StripClean(url);
  }

  /** That link names no supported shop, so it yields no price whatever its query. */
  lemma UnknownShopUnpriced(url: string, query: Query)
    requires url == "https://shop.example/phone"
    ensures ExtractPrice(url, query) == None
  {
    LettersLacking(url);
  }

  /**
   * An order whose link gives no price and whose price is then typed by hand (for instance
   * the link `https://shop.example/phone` and the price "70000", which the lemmas above
   * show to qualify): exactly one request is saved,
   * holding the trimmed answers, the typed price and status `new`, and the operator is
   * told about it.
   */
  method ManualPriceOrder(user: User, now: Timestamp, product: string, url: string, query: Query,
                          price: string, city: string, contact: string)
    returns (saved: seq<Request>, notice: Option<Notice>)
    requires |Strip(product)| >= 3 && RoutesToLink(url) && ExtractPrice(Strip(url), query) == None
    requires !RoutesToLink(price) && KeepDigits(Strip(price)) != [] && InRange(DigitsValue(KeepDigits(Strip(price))))
    requires |Strip(city)| >= 2 && Strip(contact) != []
    ensures var answered := Submission(user.id, user.username.GetOr(""), Strip(product), Strip(url),
        DigitsValue(KeepDigits(Strip(price))), Strip(city), Strip(contact), "manual");
      saved == [NewRequest(1, answered, now)] && notice == Some(NewRequestNotice(1, answered))
    ensures |saved| == 1 && saved[0].status == StatusNew && saved[0].foundPrice == None && saved[0].economy == None
  {
    var session := AnswersWithTypedPrice(product, url, query, price, city);
    saved, notice := ContactGiven(session, user, Strip(product), Strip(url), DigitsValue(KeepDigits(Strip(price))),
      Strip(city), contact, now);
  }

  /** The contact step on complete answers saves them as the first request of an empty store. */
  method ContactGiven(session: Session, user: User, product: string, url: string, price: int, city: string,
                      contact: string, now: Timestamp)
    returns (saved: seq<Request>, notice: Option<Notice>)
    requires session.Valid() && session.userData == ManualAnswers(product, url, price, city) && Strip(contact) != []
    modifies session
    ensures var answered := Submission(user.id, user.username.GetOr(""), product, url, price, city, Strip(contact), "manual");
      saved == [NewRequest(1, answered, now)] && notice == Some(NewRequestNotice(1, answered))
  {
    ManualAnswersSubmitted(product, url, price, city, user, Strip(contact));
    var answered := Submission(user.id, user.username.GetOr(""), product, url, price, city, Strip(contact), "manual");
    assert SubmissionOf(session.userData, user, ContactOf(Typed(contact))) == answered;
    var db := new Database();
    var state, reply;
    state, reply, notice := session.ReceiveContact(Typed(contact), user, db, now);
    saved := db.requests;
    assert saved == [] + [NewRequest(1, answered, now)];
  }

  /** The conversation data of an order priced by hand, once the city is known. */
  function ManualAnswers(product: string, url: string, price: int, city: string): map<Key, Value> {
    map[ProductKey := Str(product), ProductUrlKey := Str(url), AwaitingManualPriceKey := Flag(false),
        PriceSourceKey := Str("manual"), KnownPriceKey := Num(price), CityKey := Str(city)]
  }

  /** Such data is complete, and the submission built from it holds the answers as given. */
  lemma ManualAnswersSubmitted(product: string, url: string, price: int, city: string, user: User, contact: string)
    ensures WellTyped(ManualAnswers(product, url, price, city)) && Complete(ManualAnswers(product, url, price, city))
    ensures SubmissionOf(ManualAnswers(product, url, price, city), user, contact)
      == Submission(user.id, user.username.GetOr(""), product, url, price, city, contact, "manual")
  {
  }

  /** The answers of a manually priced order up to the city, as the conversation data holds them. */
  method AnswersWithTypedPrice(product: string, url: string, query: Query, price: string, city: string)
    returns (session: Session)
    requires |Strip(product)| >= 3 && RoutesToLink(url) && ExtractPrice(Strip(url), query) == None
    requires !RoutesToLink(price) && KeepDigits(Strip(price)) != [] && InRange(DigitsValue(KeepDigits(Strip(price))))
    requires |Strip(city)| >= 2
    ensures fresh(session) && session.Valid()
    ensures session.userData == ManualAnswers(Strip(product), Strip(url), DigitsValue(KeepDigits(Strip(price))), Strip(city))
  {
    session := LinkWithoutPrice(product, url, query);
    TypedPriceAndCity(session, price, city);
    ManualAnswersBuilt(Strip(product), Strip(url), DigitsValue(KeepDigits(Strip(price))), Strip(city));
  }

  /** The price and the city written over the data the link step leaves give those answers. */
  lemma ManualAnswersBuilt(product: string, url: string, price: int, city: string)
    ensures map[ProductKey := Str(product), ProductUrlKey := Str(url), AwaitingManualPriceKey := Flag(true),
                PriceSourceKey := Str("manual")][KnownPriceKey := Num(price)][AwaitingManualPriceKey := Flag(false)]
              [CityKey := Str(city)]
         == ManualAnswers(product, url, price, city)
  {
  }

  /** A typed price that parses into the accepted range, then the city, are both kept. */
  method TypedPriceAndCity(session: Session, price: string, city: string)
    requires session.Valid()
    requires !RoutesToLink(price) && KeepDigits(Strip(price)) != [] && InRange(DigitsValue(KeepDigits(Strip(price))))
    requires |Strip(city)| >= 2
    modifies session
    ensures session.Valid()
    ensures session.userData == old(session.userData)[KnownPriceKey := Num(DigitsValue(KeepDigits(Strip(price))))]
      [AwaitingManualPriceKey := Flag(false)][CityKey := Str(Strip(city))]
  {
    var state, reply := session.ReceiveManualPrice(price);
    state, reply := session.ReceiveCity(city);
  }

  /** Product and link of an order whose link yields no price: the price is asked by hand. */
  method LinkWithoutPrice(product: string, url: string, query: Query) returns (session: Session)
    requires |Strip(product)| >= 3 && RoutesToLink(url) && ExtractPrice(Strip(url), query) == None
    ensures fresh(session) && session.Valid()
    ensures session.userData == map[ProductKey := Str(Strip(product)), ProductUrlKey := Str(Strip(url)),
      AwaitingManualPriceKey := Flag(true), PriceSourceKey := Str("manual")]
  {
    RoutedTextPassesLinkCheck(url);
    session := new Session();
    var state, reply := session.Order();
    state, reply := session.ReceiveProduct(product);
    state, reply := session.ReceiveLink(url, query);
  }

  /**
   * A price typed before any link: the routing sends it to the manual price handler,
   * which moves on to the city without a link, so the contact step finds the link
   * missing and ends the conversation with nothing saved.
   */
  method PriceBeforeLink(user: User, now: Timestamp, product: string, price: string, city: string, contact: string)
    returns (final: State, reply: Reply, saved: seq<Request>)
    requires |Strip(product)| >= 3
    requires !RoutesToLink(price) && KeepDigits(Strip(price)) != [] && InRange(DigitsValue(KeepDigits(Strip(price))))
    requires |Strip(city)| >= 2 && Strip(contact) != []
    ensures final == End && reply == RestartNotice && saved == []
  {
    var session := new Session();
    var state, r := session.Order();
    state, r := session.ReceiveProduct(product);
    TypedPriceAndCity(session, price, city);
    assert ProductUrlKey !in session.userData;
    var db := new Database();
    var notice;
    final, reply, notice := session.ReceiveContact(Typed(contact), user, db, now);
    saved := db.requests;
  }

  /**
   * A review submitted with five stars, approved for channel message 42, and then
   * rejected: the second decision is not refused, and the review ends rejected with
   * its publication kept.
   */
  method ReviewApprovedThenRejected(user: User, settings: Settings, text: string, now: Timestamp, later: Timestamp)
    returns (approved: Review, rejected: Review)
    requires settings.minReviewLength <= |Strip(text)| <= settings.maxReviewLength
    ensures approved.status == StatusApproved && approved.publishedMessageId == Some(42)
    ensures approved.publishedAt == Some(now) && approved.rating == 5 && approved.reviewText == Strip(text)
    ensures rejected.status == StatusRejected && rejected.publishedMessageId == Some(42)
    ensures rejected.publishedAt == Some(now) && rejected.reviewText == Strip(text)
  {
    var db := SubmitFiveStars(user, settings, text, now);
    approved, rejected := ApproveThenReject(db, settings, now, later);
  }

  /** A review dialogue with a text within bounds and five stars leaves exactly that review stored. */
  method SubmitFiveStars(user: User, settings: Settings, text: string, now: Timestamp) returns (db: Database)
    requires settings.minReviewLength <= |Strip(text)| <= settings.maxReviewLength
    ensures fresh(db) && db.reviews == [NewReview(1, user.id, user.username, Strip(text), 5, now)]
  {
    db := new Database();
    var session := new Session();
    var state, reply := session.Review();
    state, reply := session.ReceiveReviewText(text, settings);
    assert session.userData[ReviewTextKey] == Str(Strip(text));
    var notice;
    state, reply, notice := session.ReceiveReviewRating(5, user, db, now);
  }

  /** A status update of a store holding one review changes that review. */
  lemma OnlyReviewUpdated(v: Review, status: string, messageId: Option<int>, now: Timestamp)
    ensures ReviewStatusUpdated([v], v.id, status, messageId, now) == [WithStatus(v, status, messageId, now)]
    ensures FindReview([v], v.id) == Some(v)
  {
    assert FirstIndex([v], ReviewId, v.id) == 0;
  }

  /** The single stored review approved for message 42, then rejected. */
  method ApproveThenReject(db: Database, settings: Settings, now: Timestamp, later: Timestamp)
    returns (approved: Review, rejected: Review)
    requires |db.reviews| == 1 && db.reviews[0].id == 1
    modifies db
    ensures approved == WithStatus(old(db.reviews[0]), StatusApproved, Some(42), now)
    ensures rejected == approved.(status := StatusRejected)
  {
    var v := db.reviews[0];
    OnlyReviewUpdated(v, StatusApproved, Some(42), now);
    var reply := HandleReviewDecision(db, settings, Approve, 1, Sent(42), now);
    approved := db.reviews[0];
    OnlyReviewUpdated(approved, StatusRejected, None, later);
    reply := HandleReviewDecision(db, settings, Reject, 1, SendFailed, later);
    rejected := db.reviews[0];
  }

  /**
   * The two dialogues share one `user_data`: starting an order while the review waits
   * for its rating wipes the text, and the rating then fails without saving a review.
   */
  method OrderWipesPendingReview(user: User, settings: Settings, text: string, now: Timestamp)
    returns (reply: Reply, saved: seq<Review>)
    requires settings.minReviewLength <= |Strip(text)| <= settings.maxReviewLength
    ensures reply == HandlerFailed && saved == []
  {
    var db := new Database();
    var session := new Session();
    var state, r := session.Review();
    state, r := session.ReceiveReviewText(text, settings);
    state, r := session.Order();
    var notice;
    state, reply, notice := session.ReceiveReviewRating(4, user, db, now);
    saved := db.reviews;
  }

  /** A rating of seven reaching the store is kept as five. */
  method RatingSevenStoredAsFive(user: User, text: string, now: Timestamp) returns (stored: Review)
    ensures stored.rating == 5 && stored.status == StatusPending && stored.publishedAt == None
  {
    var db := new Database();
    var id := db.SaveReview(user.id, user.username, text, 7, now);
    stored := db.reviews[0];
  }
}
