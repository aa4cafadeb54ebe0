# gipervygoda_bot in Dafny

A model of the Telegram bot that takes purchase requests ("find this product cheaper")
and customer reviews. It covers the following parts:

- **The order dialogue.** It asks for a product name, a product link, a price, a city and a
  contact. The price is either extracted from the link's query or typed by hand. The
  dialogue then saves a request and notifies the operator.
- **The review dialogue.** It asks for a text of bounded length and a star rating. It saves
  a pending review and sends the operator a moderation request.
- **The moderation decision.** Approval posts the review to the publication channel and
  records the message id and the publication time. Rejection only records the status.
- **The JSON record store.** It saves requests and reviews, looks them up and filters them,
  updates and deletes them, lists approved reviews newest first, and computes statistics.
- **The pure configuration helpers.** These are the configuration check, the channel post
  link, and the grouping of prices into thousands.

Modules:

- `Wrappers`: `Option`.
- `Text`: the Python string built-ins the bot relies on, namely `strip`, digit filtering,
  `replace`, `lower`, `str(int)` and string ordering.
- `Config`: `config.py`.
- `Records`: the stored records and every store function that changes nothing.
- `Store`: class `Database`, whose two fields are the two JSON lists. Saves, updates and
  deletes are methods on it.
- `Pricing`: `extract_price_from_url`.
- `Dialogue`: class `Session`. Its field is one user's `user_data` dictionary, and it has
  one method per conversation handler. The module also holds the moderation handler and
  the routing filter of the link state.
- `Scenarios`: whole conversations played out on a fresh store.

The environment values (token, operator id, channel, review bounds) are parameters. So
are the current time, the parsed query of a link, and the outcome of posting to the
channel.

The program's own comment and its code disagree on the marketplace gate. The comment
at bot.py:32 says the link is checked to be a link to a popular marketplace. The code at
bot.py:30-40 looks for the marketplace names anywhere in the lower-cased link, path and
query included. The model follows the code (`Pricing.DomainAnywhere`).

## Model

| member | source | states |
|---|---|---|
| Text.Strip | bot.py:152 | `str.strip()`: the result is no longer than the input, and it neither starts nor ends with whitespace |
| Text.TrimStartSpec | bot.py:152 | stripping the front removes exactly a run of leading whitespace and stops at a non-space |
| Text.TrimEndSpec | bot.py:152 | stripping the end removes exactly a run of trailing whitespace and stops at a non-space |
| Text.StripKeepsPrefix | bot.py:177-180 | a text that starts with a non-space prefix still starts with it after stripping |
| Text.StripClean | bot.py:152 | a text with no whitespace at either end is left unchanged by stripping |
| Text.KeepDigits | bot.py:227-228 | `re.sub(r'[^\d]', '', s)`: a character is in the result exactly when it is a digit of the input; the result is all digits, no longer than the input, the input itself when it is all digits and empty when it has none |
| Text.KeepDigitsAppend | bot.py:227-228 | keeping the digits distributes over concatenation |
| Text.GroupedDigitsKept | bot.py:227-228 | a price typed as digit groups separated by a space and followed by a currency sign, such as `70 000 ₽`, reads as the digits joined |
| Text.DigitsRoundTrip | config.py:151-156 | the decimal digits of a number read back as that number |
| Text.Lower | bot.py:30 | `lower()` keeps the length and lower-cases each position |
| Text.LowerIdempotent | bot.py:30 | lower-casing twice is lower-casing once |
| Text.RemoveAll | config.py:139-148 | `replace(p, '')` removes occurrences of `p` from left to right |
| Text.RemoveAllKeeps | config.py:142 | a character that is not part of `p` survives `replace(p, '')` |
| Text.RemoveAllLength | config.py:142 | `replace(p, '')` shortens the text by a whole number of copies of `p` |
| Text.ContainsIffOccurs | bot.py:39-40 | `p in s` holds exactly when `p` occurs at some position of `s` |
| Text.StrLeTotal | database.py:192 | the string order used by the sort is total |
| Text.StrLeTrans | database.py:192 | the string order used by the sort is transitive |
| Config.ConfigErrors | config.py:107-135 | each of the four errors is in the list exactly when its condition holds, and none is listed twice |
| Config.ValidateConfig | config.py:107-135 | the check passes exactly when the token is given and contains `:`, the operator id is non-zero and the channel is non-empty |
| Config.MissingTokenReportedOnce | config.py:112-119 | without a token the first error says so, and it is reported only once: the colon check needs a token |
| Config.ChannelMessageUrl | config.py:139-148 | the post link starts with `https://t.me/` and ends with `/` and the message id |
| Config.HandleChannelUrl | config.py:139-148 | a channel not starting with `-100` links as `https://t.me/<name without @>/<id>` |
| Config.NumericChannelUrl | config.py:139-144 | a `-100` channel links under `c/` with the digits that follow the prefix |
| Config.RemovalCanLeavePrefix | config.py:142 | removing `-100` everywhere can assemble a new `-100`: `-1-10000` gives `-100` |
| Config.GroupLayout | config.py:151-156 | the grouped price has one space per three digits, and the spaces stand exactly every fourth position from the right |
| Config.GroupHead | config.py:153 | the grouped digits start with the first digit |
| Config.GroupRoundTrip | config.py:151-156 | deleting the spaces of the grouped digits gives the digits back |
| Config.FormatPrice | config.py:151-156 | deleting the spaces of a formatted price gives `str(int(price))`, negative prices included |
| Config.FormatPriceLayout | config.py:151-156 | a formatted price starts with `-` exactly for a negative price; after it come the magnitude's digits with one space per full group of three, the spaces standing exactly every fourth position from the right |
| Config.FormatSeventyThousand | config.py:151-156 | 70000 is written `70 000` |
| Records.Filter | database.py:60 | a list comprehension keeps exactly the elements that pass, and never lengthens the list |
| Records.FilterAppend | database.py:60 | filtering distributes over concatenation |
| Records.FilterKeepsAll | database.py:115-119 | filtering keeps the length exactly when every element passes |
| Records.FirstIndex | database.py:72-75 | the loop finds the first position holding the id, or reports that none holds it |
| Records.NewRequest | database.py:29-54 | the saved record has the given id, and the submitter's id and name, the product, the known price, the city and the contact as submitted; status `new`, both time stamps `now`, no found price, economy or commission, and empty notes |
| Records.NewRequestDropsLinkAndSource | database.py:34-49 | the stored request records neither the link nor the price source of the submission |
| Records.FindRequest | database.py:69-75 | `get_request` returns `None` exactly when no record has the id, and otherwise the first record with it |
| Records.RequestsOfUser | database.py:57-60 | `get_user_requests` keeps exactly the user's records |
| Records.RequestsByStatus | database.py:106-109 | `get_requests_by_status` keeps exactly the records with that status |
| Records.RequestsByStatusAppend | database.py:106-109 | an appended record counts only under its own status |
| Records.WithoutRequest | database.py:112-122 | the deletion keeps exactly the records with another id, and shrinks the list exactly when the id was present |
| Records.WithoutRequestAppend | database.py:117 | the deletion distributes over concatenation, so the survivors keep their stored order and multiplicity |
| Records.WithoutRequestOne | database.py:117 | a single record is kept exactly when its id differs |
| Records.FoundPriceDerivesEconomy | database.py:86-96 | recording a found price sets economy to known minus found when both are non-zero, and sets the commission at 0.4 of the economy only when the economy is positive; nothing else but the time stamp changes |
| Records.ApplyRequestChanges | database.py:86-96 | `updated_at` becomes `now`; without a found price the record is the keyword update alone |
| Records.UnknownKeyIgnored | database.py:86-88 | a keyword the record does not have changes nothing but `updated_at` |
| Records.UpdatedRequests | database.py:83-98 | the list keeps its length and every record with another id |
| Records.UpdateTouchesFirstMatchOnly | database.py:83-98 | only the first record with the id is updated; without one the list is unchanged |
| Records.UpdateFirstMatch | database.py:83-98 | the changes land at the first position holding the id |
| Records.DeleteThenSaveReusesId | database.py:112-122 | after deleting any request but the last, the next saved request gets the id of the last survivor, and a lookup of that id finds the older record |
| Records.RemoveUniqueId | database.py:112-122 | when ids are positions plus one, deleting an id removes exactly one record |
| Records.KeptIdsDistinct | database.py:117 | the records kept by such a deletion have distinct ids |
| Records.CoerceRating | database.py:131-132 | a stored rating is between 1 and 5; an out-of-range rating becomes 5 and any other is kept |
| Records.NewReview | database.py:126-151 | the saved review has the given id, user id, `username or ''` and text; the rating as given when it is from 1 to 5 and 5 otherwise; status `pending`, `created_at` `now`, no publication time or message id, and empty operator notes |
| Records.FindReview | database.py:154-160 | `get_review` returns `None` exactly when no review has the id, and otherwise the first review with it |
| Records.AppendedReviewShadowed | database.py:154-160 | a review appended under an id already in use is hidden from lookups by the older one |
| Records.FreshIdFindsNewReview | database.py:134-160 | a review appended under an unused id is what the lookup returns |
| Records.ReviewsByStatus | database.py:175-178 | `get_reviews_by_status` keeps exactly the reviews with that status |
| Records.WithoutReview | database.py:239-249 | the deletion keeps exactly the reviews with another id, and shrinks the list exactly when the id was present |
| Records.WithoutReviewAppend | database.py:245 | the deletion distributes over concatenation, so the survivors keep their stored order and multiplicity |
| Records.WithoutReviewOne | database.py:245 | a single review is kept exactly when its id differs |
| Records.InsertNewestOrders | database.py:192 | inserting into a newest-first list keeps it newest first |
| Records.InsertNewestPermutes | database.py:192 | inserting adds exactly the one review |
| Records.SortNewestFirst | database.py:192 | the sort orders by `published_at or created_at`, newest first, and is a permutation |
| Records.Take | database.py:194 | `s[:limit]` is a prefix of the length Python gives, negative limits included |
| Records.ApprovedReviews | database.py:186-194 | every listed review is approved and stored, the list is newest first, and its length is the approved count cut by the limit |
| Records.TakeNewest | database.py:194 | cutting a newest-first list keeps it newest first and keeps only its elements |
| Records.ApprovedReviewsAreNewest | database.py:186-194 | the listing takes each approved review at most as often as it is stored, and every approved review left out is no newer than the last one listed |
| Records.TakeLeavesOlder | database.py:194 | what a cut of a newest-first list leaves behind is no newer than the last element kept |
| Records.ReviewStatusUpdated | database.py:197-217 | the list keeps its length and every review with another id |
| Records.StatusUpdateEffect | database.py:197-217 | on the first match the status always changes; the publication time changes only on approval; the message id changes only on approval with a non-zero id; every other field and review stays |
| Records.UpdatedReviews | database.py:220-236 | the list keeps its length and every review with another id |
| Records.UpdatedReviewsFirstMatch | database.py:220-236 | only the first review with the id is updated; without one the list is unchanged |
| Records.UnknownReviewKeysIgnored | database.py:227-229 | keywords the review lacks leave it unchanged |
| Records.SumsOfOne | database.py:262-263 | a record without economy or commission adds zero to the totals; otherwise it adds its value |
| Records.EconomySumAppend | database.py:262-263 | the economy and commission totals add up over concatenation, with a missing value counted as zero |
| Records.RequestStatusesDisjoint | database.py:259-261 | the new and completed counts together do not exceed the total |
| Records.ReviewStatusesDisjoint | database.py:265-267 | the pending and approved counts together do not exceed the total |
| Records.Mean | database.py:274 | the mean times the count is the sum |
| Records.MeanBounds | database.py:274 | the mean lies between the bounds of the values it averages |
| Records.GetStatistics | database.py:253-276 | the totals are the list lengths, the status counts are those of the status filters and fit within the totals, the economy and commission totals are the sums with a missing value as zero, and the average is that of the approved reviews |
| Records.AverageRating | database.py:268-274 | the average is 0 without approved reviews, and otherwise it times their count is their rating sum |
| Records.StatisticsAfterSave | database.py:253-263 | saving a request adds one to the total and to the new count and changes nothing else |
| Records.NegativeEconomyCounts | database.py:262 | a negative economy lowers the total economy rather than being skipped |
| Records.AverageWithinStars | database.py:271-274 | when the approved ratings are from 1 to 5, so is their average |
| Records.AverageCases | database.py:268-274 | no approved review gives 0; approved ratings 4 and 5 give 4.5 |
| Store.Database.constructor | database.py:11-19 | both lists start empty |
| Store.Database.SaveRequest | database.py:29-54 | the id is the count plus one, the new record goes last, and the reviews are untouched |
| Store.Database.UpdateRequest | database.py:78-103 | true exactly when some record has the id; the list becomes the first-match update; the reviews are untouched |
| Store.Database.DeleteRequest | database.py:112-122 | true exactly when some record has the id; the list becomes the one without the id, whose survivors keep their stored order (`Records.WithoutRequestAppend`, `Records.WithoutRequestOne`); the reviews are untouched |
| Store.Database.SaveReview | database.py:126-151 | the id is the count plus one, and the new pending review with its coerced rating goes last |
| Store.Database.UpdateReviewStatus | database.py:197-217 | true exactly when some review has the id; the list becomes the first-match status update |
| Store.Database.UpdateReview | database.py:220-236 | true exactly when some review has the id; the list becomes the first-match field update |
| Store.Database.DeleteReview | database.py:239-249 | true exactly when some review has the id; the list becomes the one without the id, whose survivors keep their stored order (`Records.WithoutReviewAppend`, `Records.WithoutReviewOne`); the requests are untouched |
| Store.DuplicateIdAfterDelete | database.py:29-122 | two saves, deleting the first and a third save: the third gets id 2 and a lookup of 2 returns the second |
| Pricing.Normalize | bot.py:51 | the normalized value holds no space and no comma, is no longer than the input, and is the input itself when it holds neither |
| Pricing.CommaToDot | bot.py:51 | `replace(',', '.')` keeps the length and maps each comma to a dot |
| Pricing.DotIndex | bot.py:52 | finds the first dot, or the length when there is none |
| Pricing.ParseDecimal | bot.py:52 | `int(float(s))` on the decimal grammar: a negative result needs a leading minus |
| Pricing.ProbeKeys | bot.py:47-57 | a found price is within the range and comes from a qualifying key |
| Pricing.ProbeFoundWitness | bot.py:47-57 | a found price comes from a qualifying key after keys that all fall through |
| Pricing.ProbeWitnessFound | bot.py:47-57 | a qualifying key after keys that all fall through is what the probe finds |
| Pricing.ProbeFirstHit | bot.py:47-57 | the probe finds `p` exactly when `p` is the first accepted value in key order |
| Pricing.ProbeNotFound | bot.py:47-60 | the probe finds nothing exactly when every key falls through |
| Pricing.ExtractPrice | bot.py:24-64 | a returned price is within 100 to 10 000 000, and only for a supported link |
| Pricing.ExtractPriceFirstHit | bot.py:24-60 | a link yields `p` exactly when it is supported and `p` is the first accepted value of `price`, `cost`, `amount`, `sum` |
| Pricing.ExtractPriceNone | bot.py:47-60 | a link yields nothing when every key falls through |
| Pricing.IsSupported | bot.py:30-40 | the marketplace gate: some name of the list occurs in the lower-cased link (its properties are the next three rows and `Pricing.LettersLacking`) |
| Pricing.DomainAnywhere | bot.py:30-40 | a marketplace name anywhere in the link, path or query included, passes the gate |
| Pricing.GateIgnoresCase | bot.py:30-40 | the gate gives the same answer for the link and its lower-cased form |
| Pricing.DigitsParse | bot.py:51-52 | a digit string reads as its value |
| Pricing.DecimalRoundTrip | bot.py:51-52 | the decimal form of any number reads back as that number |
| Pricing.CommaIsDecimalPoint | bot.py:51-52 | a thousands comma reads as a decimal point: `5,000` is read as 5 |
| Pricing.LettersLacking | bot.py:33-40 | a link without any of the letters w, z, k, d in either case names no marketplace |
| Pricing.PriceParameter | bot.py:47-55 | a supported link whose `price` holds an in-range number yields that number |
| Pricing.PriceParameterOutOfRange | bot.py:53-60 | a `price` outside the range yields nothing |
| Pricing.WildberriesPriceRead | bot.py:24-55 | a link containing `wildberries.ru` with `price=5000` yields 5000 |
| Pricing.UnknownSiteUnpriced | bot.py:39-40 | `https://example.com/x?price=5000` yields nothing, whatever its query says |
| Pricing.BelowFloorRejected | bot.py:53 | an Ozon link with `price=50` yields nothing |
| Dialogue.WellTypedUpdate | bot.py:162-197 | storing a value of the key's kind keeps every entry of its kind |
| Dialogue.ContactOf | bot.py:306-309 | a shared contact is stored as `+` and the phone number; a typed contact is stored trimmed |
| Dialogue.SubmissionOf | bot.py:331-341 | the submission carries the stored product, link, price and city, the user id, `username or ''` and the contact, and the stored price source or `unknown` when none is stored |
| Dialogue.ManualPriceFlagUnread | bot.py:210-255 | the `awaiting_manual_price` flag never changes whether or what is saved |
| Dialogue.LooksLikeLink | bot.py:179-180 | the link handler's check: the link starts with `http://` or `https://` in any letter case |
| Dialogue.RoutesToLink | bot.py:784-793 | the routing filter of the link state: the received text starts with `http://` or `https://` exactly as written |
| Dialogue.RoutedTextPassesLinkCheck | bot.py:784-793 | text that the routing sends to the link handler always passes its link check |
| Dialogue.CapitalLinkGoesToManualPrice | bot.py:784-793 | a link typed as `HTTPS://...` is routed to the manual price handler |
| Dialogue.Preview | bot.py:561-563 | texts up to 300 characters are shown whole; longer ones as their first 300 characters and `...` |
| Dialogue.PostUrlAgreesWithConfig | bot.py:620-626 | for `@` handles and `-100` ids the moderation link equals the configuration helper's |
| Dialogue.PostUrl | bot.py:620-626 | the moderation link starts with `https://t.me/` and ends with `/` and the message id |
| Dialogue.PostUrlDiffersFromConfig | bot.py:620-626 | for every channel that starts with neither `@` nor `-100` the two links differ |
| Dialogue.AtSignSeparates | bot.py:620-626 | two post links whose middles differ in holding a `@` differ |
| Dialogue.Session.constructor | bot.py:135-138 | a session starts with empty data |
| Dialogue.Session.Order | bot.py:135-147 | clears the data and asks for the product |
| Dialogue.Session.ReceiveProduct | bot.py:150-172 | a trimmed name shorter than 3 asks again with the data unchanged; otherwise stores it and asks for the link |
| Dialogue.Session.ReceiveLink | bot.py:175-220 | a non-link asks again; otherwise stores the trimmed link, then stores an extracted price with source `auto`, or raises the manual-price flag with source `manual` |
| Dialogue.Session.ReceiveManualPrice | bot.py:223-272 | no digits, or a price below 100 or above 10 000 000, asks again with the data unchanged; otherwise stores the price, lowers the flag and asks for the city |
| Dialogue.Session.ReceiveCity | bot.py:275-301 | a trimmed city shorter than 2 asks again; otherwise stores it and asks for the contact |
| Dialogue.Session.ReceiveContact | bot.py:304-388 | an empty typed contact asks again; a missing required field ends with nothing saved; otherwise saves exactly one request under the next id, replies with the formatted price, notifies the operator and clears the data |
| Dialogue.Session.Review | bot.py:442-456 | clears the data, marks the review dialogue and asks for the text |
| Dialogue.Session.ReceiveReviewText | bot.py:459-504 | a trimmed text outside the bounds asks again, reporting its length; otherwise stores it and asks for the rating |
| Dialogue.Session.ReceiveReviewRating | bot.py:507-539 | without a stored text it fails and saves nothing; otherwise saves the review under the next id, sends the moderation request for that review and clears the data |
| Dialogue.Session.Cancel | bot.py:705-724 | names `/review` exactly when the review dialogue is marked, and clears the data |
| Dialogue.ModerationNotice | bot.py:542-582 | a moderation request exists exactly when the review is found, and its preview is at most 303 characters |
| Dialogue.HandleReviewDecision | bot.py:585-668 | an unknown id changes nothing; approval records the status, time and message id only after a successful post; rejection records the status; a second decision is not refused |
| Scenarios.SeventyThousand | bot.py:227-236 | the typed price `70000` reads as 70000, which is within the range |
| Scenarios.NumberIsNotRouted | bot.py:784-793 | a typed number is routed to the manual price handler |
| Scenarios.UnknownShopRoutes | bot.py:784-793 | `https://shop.example/phone` is routed to the link handler and passes its check |
| Scenarios.UnknownShopTrimmed | bot.py:177 | that link is unchanged by stripping |
| Scenarios.UnknownShopUnpriced | bot.py:39-40 | that link yields no price |
| Scenarios.ManualPriceOrder | bot.py:135-388 | a full order with a hand-typed price saves exactly one new request holding the trimmed answers and the typed price, and notifies the operator |
| Scenarios.ManualAnswersSubmitted | bot.py:319-341 | the answers of that order are complete and give exactly that submission |
| Scenarios.PriceBeforeLink | bot.py:223-329 | a price typed before any link leads to the restart notice with nothing saved |
| Scenarios.ReviewApprovedThenRejected | bot.py:442-668 | a review approved for message 42 and then rejected ends rejected, with its message id and publication time kept |
| Scenarios.OnlyReviewUpdated | database.py:197-217 | in a store of one review the status update changes exactly that review |
| Scenarios.OrderWipesPendingReview | bot.py:135-518 | starting an order while a review awaits its rating wipes the text; the rating then fails and saves nothing |
| Scenarios.RatingSevenStoredAsFive | database.py:126-151 | a rating of 7 is stored as 5, pending and unpublished |

## Left out

- Telegram transport is parameters and values only. Message texts, HTML markup, keyboards and `query.answer()` are abstracted to `Reply` and `Notice` values.
- The `/start`, `/help`, `/myrequest`, `/reviews` and `/admin` commands are left out. They only format stored data.
- `init_databases`, `get_all_requests`, `get_all_reviews`, `get_user_reviews` and `get_pending_reviews` are left out. Each is a direct read or a one-line filter of the kind already modelled.
- The JSON file I/O is left out: reading, creating missing files and writing back. The two lists are the fields of `Database`.
- Current time is a `now` parameter. One time stamp is used per call, although the source reads the clock twice in `save_request`.
- `urlparse` and `parse_qs` are left out. The parsed query is a parameter.
- Pricing.ParseDecimal: reads the plain decimal form exactly and truncates it, whereas `float()` first rounds to the nearest double. The two differ when that rounding carries over an integer: `99.99999999999999999` gives 100 in the source and 99 in the model, and `9999999.9999999999` gives 10000000, inside the range, against 9999999. Exponents, `inf`, `nan`, underscores and surrounding whitespace are not modelled either.
- Records.SortNewestFirst: puts reviews with equal keys in their stored order, as Python's stable sort does, but no contract states that stability.
- Records.AverageRating: the average is an exact real, whereas the source divides as binary floats (database.py:274).
- Config.FormatPrice: takes an integer. The `int()` of a float or a string and the bare `except` that returns `str(price)` (config.py:153-156) are not modelled.
- Commissions are exact reals rather than binary floats.
- Unicode case mapping in `lower()` covers only ASCII letters. `\d` and `int()` accept only ASCII digits.
- Environment loading, `print` diagnostics and the `COMMISSION_RATE` bounds check of `config.py` are left out. The store hard-codes 0.4 in any case.
- `format_commission` is left out. It is not called by the core.
- The unused state `WAITING_FOR_PRICE` is not modelled. `WAITING_FOR_LINK`, a function object in the source, is its own state value.
- Concurrency between users and between handlers is not modelled. Each session is one user's `user_data`.
- Several failures are left out: a failed operator notification, a failed moderation request, and a failed edit after a successful post. In the source, an exception raised after the status update still reports the post as failed.
- Parsing of callback data is left out (`rating_<n>`, `approve_<id>`). The rating and the id arrive as integers.
- Command filtering and the dispatch of `ConversationHandler` are left out. The routing filter of the link state is modelled, as `Dialogue.RoutesToLink`.
- Dialogue.HandleReviewDecision: a failed post is one `SendFailed` outcome. The exception text shown to the operator is not modelled.
