/**
 * The two conversations of the bot and the moderation decision. A `Session` holds one
 * user's `user_data` dictionary; each handler reads the incoming text, updates that
 * dictionary in place, may touch the store, and returns the next conversation state with
 * the reply it sends. Messages themselves are recorded as `Reply` and `Notice` values.
 */
module Dialogue {
  import opened Wrappers
  import opened Text
  import opened Config
  import opened Records
  import opened Store
  import opened Pricing

  /**
   * The conversation states. The link state is its own value here; in the program its
   * name is bound to a function object rather than to a number of the state range.
   */
  datatype State =
    | WaitingForProduct | WaitingForLink | WaitingForCity | WaitingForContact
    | WaitingReviewText | WaitingReviewRating | End

  /** The keys the handlers write into `user_data`. */
  datatype Key =
    | ProductKey | ProductUrlKey | KnownPriceKey | PriceSourceKey
    | AwaitingManualPriceKey | CityKey | ReviewStepKey | ReviewTextKey

  datatype Value = Str(s: string) | Num(n: int) | Flag(b: bool)

  /** The kind of value each key holds. */
  predicate HasKind(k: Key, v: Value) {
    match k
    case KnownPriceKey => v.Num?
    case AwaitingManualPriceKey => v.Flag?
    case _ => v.Str?
  }

  predicate WellTyped(ud: map<Key, Value>) {
    forall k :: k in ud ==> HasKind(k, ud[k])
  }

  /** The sender of a message. */
  datatype User = User(id: int, username: Option<string>)

  /** What arrives in the contact step: a shared phone contact or typed text. */
  datatype ContactInput = SharedContact(phone: string) | Typed(text: string)

  /** What the bot answers the user (or the operator, for moderation). */
  datatype Reply =
    | AskProduct | ProductTooShort | AskLink
    | NotALink | AutoPrice(price: int) | AskManualPrice
    | PriceMalformed | PriceTooLow | PriceTooHigh | PriceSaved(price: int)
    | CityTooShort | AskContact
    | ContactEmpty | RestartNotice | RequestAccepted(id: int, shownPrice: string)
    | AskReviewText | ReviewTooShort(length: int) | ReviewTooLong(length: int) | AskRating
    | ReviewSubmitted(id: int, stars: int)
    | Cancelled(restartCommand: string)
    | ReviewMissing | Published(id: int, url: string) | PublishFailed | RejectedNotice(id: int)
    | HandlerFailed

  /** What the bot sends the operator on its own. */
  datatype Notice =
    | NewRequestNotice(id: int, request: Submission)
    | ModerationRequest(id: int, preview: string, rating: int)

  /** The moderation buttons. */
  datatype Action = Approve | Reject

  /** The result of posting to the channel: the new message's id, or a failure. */
  datatype PublishOutcome = Sent(messageId: int) | SendFailed

  /** The fields `receive_contact` insists on before saving. */
  const RequiredKeys: seq<Key> := [ProductKey, ProductUrlKey, KnownPriceKey, CityKey]

  predicate Complete(ud: map<Key, Value>) {
    ProductKey in ud && ProductUrlKey in ud && KnownPriceKey in ud && CityKey in ud
  }

  /** Writing a value of the key's kind keeps every value of its kind. */
  lemma WellTypedUpdate(ud: map<Key, Value>, k: Key, v: Value)
    requires WellTyped(ud) && HasKind(k, v)
    ensures WellTyped(ud[k := v])
  {
  }

  /** The contact as stored: a shared phone gets a leading `+`, typed text is trimmed. */
  function ContactOf(c: ContactInput): (r: string)
    ensures c.SharedContact? ==> r == "+" + c.phone
    ensures c.Typed? ==> r == Strip(c.text)
  {
    match c
    case SharedContact(phone) => "+" + phone
    case Typed(text) => Strip(text)
  }

  /** The dictionary `receive_contact` hands to the store. */
  function SubmissionOf(ud: map<Key, Value>, user: User, contact: string): (s: Submission)
    requires WellTyped(ud) && Complete(ud)
    ensures s.product == ud[ProductKey].s && s.productUrl == ud[ProductUrlKey].s
    ensures s.knownPrice == ud[KnownPriceKey].n && s.city == ud[CityKey].s
    ensures s.userId == user.id && s.username == user.username.GetOr("") && s.contact == contact
    ensures s.priceSource == if PriceSourceKey in ud then ud[PriceSourceKey].s else "unknown"
  {
    Submission(
      user.id, user.username.GetOr(""),
      ud[ProductKey].s, ud[ProductUrlKey].s, ud[KnownPriceKey].n, ud[CityKey].s,
      contact,
      if PriceSourceKey in ud then ud[PriceSourceKey].s else "unknown")
  }

  /** The `awaiting_manual_price` flag is written but never decides anything that is saved. */
  lemma ManualPriceFlagUnread(ud: map<Key, Value>, user: User, contact: string, b: bool)
    requires WellTyped(ud)
    ensures var ud' := ud[AwaitingManualPriceKey := Flag(b)];
      WellTyped(ud') && (Complete(ud') <==> Complete(ud))
      && (Complete(ud) ==> SubmissionOf(ud', user, contact) == SubmissionOf(ud, user, contact))
  {
    WellTypedUpdate(ud, AwaitingManualPriceKey, Flag(b));
  }

  /** The check `re.match(r'^https?://', url, re.IGNORECASE)` on the trimmed text. */
  predicate LooksLikeLink(url: string) {
    StartsWith(Lower(url), "http://") || StartsWith(Lower(url), "https://")
  }

  /** The routing filter of the link state: case-sensitive, on the text as received. */
  predicate RoutesToLink(text: string) {
    StartsWith(text, "http://") || StartsWith(text, "https://")
  }

  /** Text that the routing sends to the link handler always passes its link check. */
  lemma RoutedTextPassesLinkCheck(text: string)
    requires RoutesToLink(text)
    ensures LooksLikeLink(Strip(text))
  {
    if StartsWith(text, "https://") {
      PrefixSurvives(text, "https://");
    } else {
      PrefixSurvives(text, "http://");
    }
  }

  lemma PrefixSurvives(text: string, p: string)
    requires p == "http://" || p == "https://"
    requires StartsWith(text, p)
    ensures StartsWith(Lower(Strip(text)), p)
  {
    assert p[0] == 'h' && p[|p| - 1] == '/';
    assert !IsSpace('h') && !IsSpace('/');
    StripKeepsPrefix(text, p);
    LowerKeepsPrefix(Strip(text), p);
  }

  /** A link typed in capitals is routed to the manual price handler instead. */
  lemma CapitalLinkGoesToManualPrice(rest: string)
    ensures !RoutesToLink("HTTPS://" + rest)
  {
    var t := "HTTPS://" + rest;
    assert t[0] == 'H';
  }

  /** The review text as the operator's notification shows it: at most 300 characters and `...`. */
  function Preview(text: string): (r: string)
    ensures |text| <= 300 ==> r == text
    ensures |text| > 300 ==> |r| == 303 && r[..300] == text[..300] && r[300..] == "..."
  {
    if |text| > 300 then text[..300] + "..." else text
  }

  /** The post link as the moderation handler builds it: a handle first, otherwise a numeric id. */
  function PostUrl(channel: string, messageId: int): (url: string)
    ensures IsPostLink(url, messageId)
  {
    if StartsWith(channel, "@") then
      PostLinkShape("https://t.me/", RemoveAll(channel, "@"), messageId);
      "https://t.me/" + RemoveAll(channel, "@") + "/" + IntToString(messageId)
    else
      PostLinkShape("https://t.me/c/", RemoveAll(channel, "-100"), messageId);
      "https://t.me/c/" + RemoveAll(channel, "-100") + "/" + IntToString(messageId)
  }

  /** For handles and `-100` ids the handler's link agrees with the configuration helper. */
  lemma PostUrlAgreesWithConfig(channel: string, messageId: int)
    requires StartsWith(channel, "@") || StartsWith(channel, "-100")
    ensures PostUrl(channel, messageId) == ChannelMessageUrl(channel, messageId)
  {
    if StartsWith(channel, "@") {
      assert channel[0] == '@';
      assert !StartsWith(channel, "-100") by {
        if |channel| >= 4 {
          assert channel[..4][0] != "-100"[0];
        }
      }
    } else {
      assert !StartsWith(channel, "@") by {
        assert channel[0] == '-';
      }
    }
  }

  /**
   * For any other channel the two disagree: a `@` inside the channel survives in the handler's
   * link but not in the helper's, and without one the handler's link is longer by the `c/` it
   * adds, which dropping whole copies of `-100` cannot make up.
   */
  lemma PostUrlDiffersFromConfig(channel: string, messageId: int)
    requires !StartsWith(channel, "@") && !StartsWith(channel, "-100")
    ensures PostUrl(channel, messageId) != ChannelMessageUrl(channel, messageId)
  {
    var id := IntToString(messageId);
    var kept := RemoveAll(channel, "-100");
    var named := RemoveAll(channel, "@");
    assert PostUrl(channel, messageId) == "https://t.me/c/" + kept + "/" + id;
    assert ChannelMessageUrl(channel, messageId) == "https://t.me/" + named + "/" + id;
    assert "@" == ['@'];
    RemoveOneChar(channel, '@');
    if '@' in channel {
      RemoveAllKeeps(channel, "-100", '@');
      AtSignSeparates(kept, named, id);
    } else {
      WithoutAbsent(channel, '@');
      var k := RemoveAllLength(channel, "-100");
      assert |kept| + 2 != |named|;
    }
  }

  /** Links whose middles differ in holding a `@` differ, when the message id holds none. */
  lemma AtSignSeparates(kept: string, named: string, id: string)
    requires '@' in kept && '@' !in named && '@' !in id
    ensures "https://t.me/c/" + kept + "/" + id != "https://t.me/" + named + "/" + id
  {
    var u2 := "https://t.me/" + named + "/" + id;
    assert '@' !in "https://t.me/" && '@' !in "/";
    assert '@' !in u2;
  }

  /** One user's conversation data. */
  class Session {
    var userData: map<Key, Value>

    predicate Valid()
      reads this
    {
      WellTyped(userData)
    }

    constructor ()
      ensures userData == map[] && Valid()
    {
      userData := map[];
    }

    /** `/order`: forget everything and ask for the product. */
    method Order() returns (next: State, reply: Reply)
      modifies this
      ensures userData == map[] && Valid()
      ensures next == WaitingForProduct && reply == AskProduct
    {
      userData := map[];
      next, reply := WaitingForProduct, AskProduct;
    }

    /** `receive_product`: a trimmed name of at least three characters moves on to the link. */
    method ReceiveProduct(text: string) returns (next: State, reply: Reply)
      requires Valid()
      modifies this
      ensures Valid()
      ensures |Strip(text)| < 3 ==> next == WaitingForProduct && reply == ProductTooShort && userData == old(userData)
      ensures |Strip(text)| >= 3 ==>
        next == WaitingForLink && reply == AskLink && userData == old(userData)[ProductKey := Str(Strip(text))]
    {
      var product := Strip(text);
      if |product| < 3 {
        next, reply := WaitingForProduct, ProductTooShort;
        return;
      }
      WellTypedUpdate(userData, ProductKey, Str(product));
      userData := userData[ProductKey := Str(product)];
      next, reply := WaitingForLink, AskLink;
    }

    /**
     * `receive_link`, given the parsed query of the link: keep the trimmed link, then
     * either take the extracted price and ask for the city, or ask for the price by hand.
     */
    method ReceiveLink(text: string, query: Query) returns (next: State, reply: Reply)
      requires Valid()
      modifies this
      ensures Valid()
      ensures !LooksLikeLink(Strip(text)) ==> next == WaitingForLink && reply == NotALink && userData == old(userData)
      ensures LooksLikeLink(Strip(text)) ==>
        var url := Strip(text);
        var base := old(userData)[ProductUrlKey := Str(url)];
        match ExtractPrice(url, query)
        case Some(p) =>
          next == WaitingForCity && reply == AutoPrice(p)
          && userData == base[KnownPriceKey := Num(p)][PriceSourceKey := Str("auto")]
        case None =>
          next == WaitingForLink && reply == AskManualPrice
          && userData == base[AwaitingManualPriceKey := Flag(true)][PriceSourceKey := Str("manual")]
    {
      var url := Strip(text);
      if !LooksLikeLink(url) {
        next, reply := WaitingForLink, NotALink;
        return;
      }
      WellTypedUpdate(userData, ProductUrlKey, Str(url));
      userData := userData[ProductUrlKey := Str(url)];
      var auto := ExtractPrice(url, query);
      if auto.Some? {
        WellTypedUpdate(userData, KnownPriceKey, Num(auto.value));
        userData := userData[KnownPriceKey := Num(auto.value)];
        WellTypedUpdate(userData, PriceSourceKey, Str("auto"));
        userData := userData[PriceSourceKey := Str("auto")];
        next, reply := WaitingForCity, AutoPrice(auto.value);
      } else {
        WellTypedUpdate(userData, AwaitingManualPriceKey, Flag(true));
        userData := userData[AwaitingManualPriceKey := Flag(true)];
        WellTypedUpdate(userData, PriceSourceKey, Str("manual"));
        userData := userData[PriceSourceKey := Str("manual")];
        next, reply := WaitingForLink, AskManualPrice;
      }
    }

    /**
     * `receive_manual_price`: keep only the digits; no digits, or a value outside the
     * accepted range, asks again; otherwise the price is stored and the city is asked.
     */
    method ReceiveManualPrice(text: string) returns (next: State, reply: Reply)
      requires Valid()
      modifies this
      ensures Valid()
      ensures var digits := KeepDigits(Strip(text));
        if digits == [] then
          next == WaitingForLink && reply == PriceMalformed && userData == old(userData)
        else if !InRange(DigitsValue(digits)) then
          next == WaitingForLink && userData == old(userData)
          && reply == (if DigitsValue(digits) < MinPrice then PriceTooLow else PriceTooHigh)
        else
          next == WaitingForCity && reply == PriceSaved(DigitsValue(digits))
          && userData == old(userData)[KnownPriceKey := Num(DigitsValue(digits))][AwaitingManualPriceKey := Flag(false)]
    {
      var digits := KeepDigits(Strip(text));
      if digits == [] {
        next, reply := WaitingForLink, PriceMalformed;
        return;
      }
      var price := DigitsValue(digits);
      if price < MinPrice {
        next, reply := WaitingForLink, PriceTooLow;
        return;
      }
      if price > MaxPrice {
        next, reply := WaitingForLink, PriceTooHigh;
        return;
      }
      WellTypedUpdate(userData, KnownPriceKey, Num(price));
      userData := userData[KnownPriceKey := Num(price)];
      WellTypedUpdate(userData, AwaitingManualPriceKey, Flag(false));
      userData := userData[AwaitingManualPriceKey := Flag(false)];
      next, reply := WaitingForCity, PriceSaved(price);
    }

    /** `receive_city`: a trimmed name of at least two characters moves on to the contact. */
    method ReceiveCity(text: string) returns (next: State, reply: Reply)
      requires Valid()
      modifies this
      ensures Valid()
      ensures |Strip(text)| < 2 ==> next == WaitingForCity && reply == CityTooShort && userData == old(userData)
      ensures |Strip(text)| >= 2 ==>
        next == WaitingForContact && reply == AskContact && userData == old(userData)[CityKey := Str(Strip(text))]
    {
      var city := Strip(text);
      if |city| < 2 {
        next, reply := WaitingForCity, CityTooShort;
        return;
      }
      WellTypedUpdate(userData, CityKey, Str(city));
      userData := userData[CityKey := Str(city)];
      next, reply := WaitingForContact, AskContact;
    }

    /**
     * `receive_contact`: an empty typed contact asks again; a missing required field ends
     * the conversation with nothing saved; otherwise exactly one request is saved, the
     * user and the operator are told, and the conversation data is cleared.
     */
    method ReceiveContact(input: ContactInput, user: User, db: Database, now: Timestamp)
      returns (next: State, reply: Reply, notice: Option<Notice>)
      requires Valid()
      modifies this, db
      ensures Valid()
      ensures db.reviews == old(db.reviews)
      ensures ContactOf(input) == [] && input.Typed? ==>
        next == WaitingForContact && reply == ContactEmpty && notice == None
        && userData == old(userData) && db.requests == old(db.requests)
      ensures (ContactOf(input) != [] || input.SharedContact?) && !Complete(old(userData)) ==>
        next == End && reply == RestartNotice && notice == None
        && userData == old(userData) && db.requests == old(db.requests)
      ensures (ContactOf(input) != [] || input.SharedContact?) && Complete(old(userData)) ==>
        var s := SubmissionOf(old(userData), user, ContactOf(input));
        var id := |old(db.requests)| + 1;
        && next == End && userData == map[]
        && db.requests == old(db.requests) + [NewRequest(id, s, now)]
        && reply == RequestAccepted(id, FormatPrice(s.knownPrice))
        && notice == Some(NewRequestNotice(id, s))
    {
      var contact := ContactOf(input);
      if input.Typed? && contact == [] {
        next, reply, notice := WaitingForContact, ContactEmpty, None;
        return;
      }
      var i := 0;
      while i < |RequiredKeys|
        invariant 0 <= i <= |RequiredKeys|
        invariant forall j :: 0 <= j < i ==> RequiredKeys[j] in userData
      {
        if RequiredKeys[i] !in userData {
          next, reply, notice := End, RestartNotice, None;
          return;
        }
        i := i + 1;
      }
      assert RequiredKeys[0] in userData && RequiredKeys[1] in userData;
      assert RequiredKeys[2] in userData && RequiredKeys[3] in userData;
      var s := SubmissionOf(userData, user, contact);
      var id := db.SaveRequest(s, now);
      reply := RequestAccepted(id, FormatPrice(s.knownPrice));
      notice := Some(NewRequestNotice(id, s));
      userData := map[];
      next := End;
    }

    /** `/review`: forget everything, mark the review dialogue, and ask for the text. */
    method Review() returns (next: State, reply: Reply)
      modifies this
      ensures userData == map[ReviewStepKey := Str("text")] && Valid()
      ensures next == WaitingReviewText && reply == AskReviewText
    {
      userData := map[];
      WellTypedUpdate(userData, ReviewStepKey, Str("text"));
      userData := userData[ReviewStepKey := Str("text")];
      next, reply := WaitingReviewText, AskReviewText;
    }

    /** `receive_review_text`: a trimmed text within the configured bounds moves on to the rating. */
    method ReceiveReviewText(text: string, settings: Settings) returns (next: State, reply: Reply)
      requires Valid()
      modifies this
      ensures Valid()
      ensures var t := Strip(text);
        if |t| < settings.minReviewLength then
          next == WaitingReviewText && reply == ReviewTooShort(|t|) && userData == old(userData)
        else if |t| > settings.maxReviewLength then
          next == WaitingReviewText && reply == ReviewTooLong(|t|) && userData == old(userData)
        else
          next == WaitingReviewRating && reply == AskRating && userData == old(userData)[ReviewTextKey := Str(t)]
    {
      var t := Strip(text);
      if |t| < settings.minReviewLength {
        next, reply := WaitingReviewText, ReviewTooShort(|t|);
        return;
      }
      if |t| > settings.maxReviewLength {
        next, reply := WaitingReviewText, ReviewTooLong(|t|);
        return;
      }
      WellTypedUpdate(userData, ReviewTextKey, Str(t));
      userData := userData[ReviewTextKey := Str(t)];
      next, reply := WaitingReviewRating, AskRating;
    }

    /**
     * `receive_review_rating`: save the review, tell the user, send the operator the
     * moderation request for the review the store finds under the new id, and clear the
     * data. Without a stored text the handler fails before saving and the state stays.
     */
    method ReceiveReviewRating(rating: int, user: User, db: Database, now: Timestamp)
      returns (next: State, reply: Reply, notice: Option<Notice>)
      requires Valid()
      modifies this, db
      ensures Valid()
      ensures db.requests == old(db.requests)
      ensures ReviewTextKey !in old(userData) ==>
        next == WaitingReviewRating && reply == HandlerFailed && notice == None
        && userData == old(userData) && db.reviews == old(db.reviews)
      ensures ReviewTextKey in old(userData) ==>
        var id := |old(db.reviews)| + 1;
        && db.reviews == old(db.reviews) + [NewReview(id, user.id, user.username, old(userData)[ReviewTextKey].s, rating, now)]
        && next == End && userData == map[] && reply == ReviewSubmitted(id, rating)
        && FindReview(db.reviews, id).Some?
        && var shown := FindReview(db.reviews, id).value;
           notice == Some(ModerationRequest(id, Preview(shown.reviewText), shown.rating))
    {
      if ReviewTextKey !in userData {
        next, reply, notice := WaitingReviewRating, HandlerFailed, None;
        return;
      }
      var text := userData[ReviewTextKey].s;
      var id := db.SaveReview(user.id, user.username, text, rating, now);
      reply := ReviewSubmitted(id, rating);
      notice := ModerationNotice(db.reviews, id);
      assert db.reviews[|db.reviews| - 1].id == id;
      userData := map[];
      next := End;
    }

    /** `cancel`: the reply names the dialogue the data belongs to; the data is cleared. */
    method Cancel() returns (next: State, reply: Reply)
      modifies this
      ensures userData == map[] && Valid() && next == End
      ensures reply == Cancelled(if ReviewStepKey in old(userData) then "/review" else "/order")
    {
      if ReviewStepKey in userData {
        reply := Cancelled("/review");
      } else {
        reply := Cancelled("/order");
      }
      userData := map[];
      next := End;
    }
  }

  /** `send_review_to_admin`: the moderation request for the review found under the id, if any. */
  function ModerationNotice(vs: seq<Review>, id: int): (n: Option<Notice>)
    ensures n.Some? <==> exists k :: 0 <= k < |vs| && vs[k].id == id
    ensures n.Some? ==> n.value.ModerationRequest? && |n.value.preview| <= 303
  {
    match FindReview(vs, id)
    case None => None
    case Some(v) => Some(ModerationRequest(id, Preview(v.reviewText), v.rating))
  }

  /**
   * `handle_review_decision`: an unknown id changes nothing; approval records the channel
   * message only once the post went out; rejection always records the status. A review
   * already approved or rejected is not protected from a second decision.
   */
  method HandleReviewDecision(db: Database, settings: Settings, action: Action, id: int,
                              publish: PublishOutcome, now: Timestamp)
    returns (reply: Reply)
    modifies db
    ensures db.requests == old(db.requests)
    ensures FindReview(old(db.reviews), id).None? ==> reply == ReviewMissing && db.reviews == old(db.reviews)
    ensures FindReview(old(db.reviews), id).Some? ==>
      match action
      case Approve =>
        (match publish
         case Sent(m) =>
           db.reviews == ReviewStatusUpdated(old(db.reviews), id, StatusApproved, Some(m), now)
           && reply == Published(id, PostUrl(settings.channelId, m))
         case SendFailed => db.reviews == old(db.reviews) && reply == PublishFailed)
      case Reject =>
        db.reviews == ReviewStatusUpdated(old(db.reviews), id, StatusRejected, None, now)
        && reply == RejectedNotice(id)
  {
    var found := FindReview(db.reviews, id);
    if found.None? {
      reply := ReviewMissing;
      return;
    }
    match action {
      case Approve =>
        match publish {
          case Sent(m) =>
            var _ := db.UpdateReviewStatus(id, StatusApproved, Some(m), now);
            reply := Published(id, PostUrl(settings.channelId, m));
          case SendFailed =>
            reply := PublishFailed;
        }
      case Reject =>
        var _ := db.UpdateReviewStatus(id, StatusRejected, None, now);
        reply := RejectedNotice(id);
    }
  }
}
