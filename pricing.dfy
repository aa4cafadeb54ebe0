/**
 * The price heuristic for product links: a marketplace gate on the lower-cased link, then
 * the query parameters `price`, `cost`, `amount` and `sum` probed in that order; the first
 * whose first value reads as a number within the accepted range gives the price.
 */
module Pricing {
  import opened Wrappers
  import opened Text

  /** Marketplace names; the gate looks for them anywhere in the link. */
  const SupportedDomains: seq<string> := [
    "wildberries.ru", "wildberries.", "ozon.ru", "ozon.",
    "market.yandex.ru", "citilink.ru", "dns-shop.ru",
    "mvideo.ru", "eldorado.ru", "technopark.ru"]

  const PriceKeys: seq<string> := ["price", "cost", "amount", "sum"]

  /** The accepted price range, both ends included. */
  const MinPrice := 100
  const MaxPrice := 10000000

  predicate InRange(p: int) {
    MinPrice <= p <= MaxPrice
  }

  /** The query string of a link as `parse_qs` delivers it: each key with its values. */
  type Query = map<string, seq<string>>

  /** Some marketplace name occurs somewhere in the lower-cased link. */
  predicate IsSupported(url: string) {
    exists i :: 0 <= i < |SupportedDomains| && Contains(Lower(url), SupportedDomains[i])
  }

  /** `.replace(',', '.')`. */
  function CommaToDot(s: string): (r: string)
    ensures |r| == |s|
    ensures forall i :: 0 <= i < |s| ==> r[i] == if s[i] == ',' then '.' else s[i]
  {
    if s == [] then [] else [if s[0] == ',' then '.' else s[0]] + CommaToDot(s[1..])
  }

  /** `.replace(' ', '').replace(',', '.')`. */
  function Normalize(s: string): (r: string)
    ensures ' ' !in r && ',' !in r && |r| <= |s|
    ensures ' ' !in s && ',' !in s ==> r == s
  {
    if ' ' !in s && ',' !in s then
      WithoutAbsent(s, ' ');
      CommaToDotNoComma(s);
      CommaToDot(Without(s, ' '))
    else
      CommaToDot(Without(s, ' '))
  }

  /** The position of the first `.`, or the length when there is none. */
  function DotIndex(s: string): (k: nat)
    ensures k <= |s| && '.' !in s[..k]
    ensures k < |s| ==> s[k] == '.'
  {
    if s == [] || s[0] == '.' then 0 else 1 + DotIndex(s[1..])
  }

  /**
   * `int(float(s))` for the decimal forms `[sign] digits [. digits]` with at least one
   * digit: the fraction is dropped, which truncates toward zero. Anything else fails.
   */
  function ParseDecimal(s: string): (r: Option<int>)
    ensures r.Some? ==> s != [] && (r.value < 0 ==> s[0] == '-')
  {
    var signed := s != [] && (s[0] == '-' || s[0] == '+');
    var body := if signed then s[1..] else s;
    var k := DotIndex(body);
    var whole := body[..k];
    var frac := if k < |body| then body[k + 1..] else [];
    var v: int := if AllDigits(whole) then DigitsValue(whole) else 0;
    if AllDigits(whole) && AllDigits(frac) && |whole| + |frac| >= 1 then
      Some(if s != [] && s[0] == '-' then -v else v)
    else None
  }

  /** How probing the keys ends: a price, a key present with no value, or nothing. */
  datatype Probe = Found(price: int) | Crashed | NotFound

  /** The key is present and its first value reads as an accepted price `p`. */
  predicate Qualifies(q: Query, key: string, p: int) {
    key in q && q[key] != [] && ParseDecimal(Normalize(q[key][0])) == Some(p) && InRange(p)
  }

  /** The key is absent, or its first value does not read as an accepted price. */
  predicate FallsThrough(q: Query, key: string) {
    key !in q || (q[key] != [] && (ParseDecimal(Normalize(q[key][0])).None?
                                   || !InRange(ParseDecimal(Normalize(q[key][0])).value)))
  }

  /** The loop over the keys, with its early return and its `continue` on bad values. */
  function ProbeKeys(keys: seq<string>, q: Query): (r: Probe)
    ensures r.Found? ==> InRange(r.price) && exists i :: 0 <= i < |keys| && Qualifies(q, keys[i], r.price)
  {
    if keys == [] then NotFound
    else if keys[0] !in q then ProbeKeys(keys[1..], q)
    else if q[keys[0]] == [] then Crashed
    else match ParseDecimal(Normalize(q[keys[0]][0]))
      case Some(p) => if InRange(p) then Found(p) else ProbeKeys(keys[1..], q)
      case None => ProbeKeys(keys[1..], q)
  }

  /** A found price comes from a qualifying key after keys that all fall through. */
  lemma {:induction false} ProbeFoundWitness(keys: seq<string>, q: Query, p: int)
    requires ProbeKeys(keys, q) == Found(p)
    ensures exists i :: 0 <= i < |keys| && Qualifies(q, keys[i], p) && forall j :: 0 <= j < i ==> FallsThrough(q, keys[j])
  {
    var tail := keys[1..];
    if !Qualifies(q, keys[0], p) {
      assert FallsThrough(q, keys[0]) && ProbeKeys(tail, q) == Found(p);
      ProbeFoundWitness(tail, q, p);
      var i :| 0 <= i < |tail| && Qualifies(q, tail[i], p) && forall j :: 0 <= j < i ==> FallsThrough(q, tail[j]);
      assert keys[i + 1] == tail[i];
      forall j | 0 <= j < i + 1 ensures FallsThrough(q, keys[j]) {
        if j > 0 {
          assert keys[j] == tail[j - 1];
        }
      }
      assert Qualifies(q, keys[i + 1], p);
    } else {
      assert Qualifies(q, keys[0], p);
    }
  }

  /** A qualifying key after keys that all fall through is what the probe finds. */
  lemma {:induction false} ProbeWitnessFound(keys: seq<string>, q: Query, p: int, i: int)
    requires 0 <= i < |keys| && Qualifies(q, keys[i], p)
    requires forall j :: 0 <= j < i ==> FallsThrough(q, keys[j])
    ensures ProbeKeys(keys, q) == Found(p)
  {
    if i > 0 {
      var tail := keys[1..];
      assert FallsThrough(q, keys[0]);
      assert tail[i - 1] == keys[i];
      forall j | 0 <= j < i - 1 ensures FallsThrough(q, tail[j]) {
        assert tail[j] == keys[j + 1];
      }
      ProbeWitnessFound(tail, q, p, i - 1);
    }
  }

  /** The probe finds `p` exactly when some key qualifies with `p` and every earlier key falls through. */
  lemma ProbeFirstHit(keys: seq<string>, q: Query, p: int)
    ensures ProbeKeys(keys, q) == Found(p) <==>
      exists i :: 0 <= i < |keys| && Qualifies(q, keys[i], p) && forall j :: 0 <= j < i ==> FallsThrough(q, keys[j])
  {
    if ProbeKeys(keys, q) == Found(p) {
      ProbeFoundWitness(keys, q, p);
    }
    if exists i :: 0 <= i < |keys| && Qualifies(q, keys[i], p) && forall j :: 0 <= j < i ==> FallsThrough(q, keys[j]) {
      var i :| 0 <= i < |keys| && Qualifies(q, keys[i], p) && forall j :: 0 <= j < i ==> FallsThrough(q, keys[j]);
      ProbeWitnessFound(keys, q, p, i);
    }
  }

  /** The probe finds nothing exactly when every key falls through. */
  lemma {:induction false} ProbeNotFound(keys: seq<string>, q: Query)
    ensures ProbeKeys(keys, q) == NotFound <==> forall j :: 0 <= j < |keys| ==> FallsThrough(q, keys[j])
  {
    if keys != [] {
      ProbeNotFound(keys[1..], q);
      var tail := keys[1..];
      assert forall i :: 1 <= i < |keys| ==> keys[i] == tail[i - 1];
    }
  }

  /**
   * `extract_price_from_url`: no price unless the link names a marketplace; a key present
   * without values ends the search with no price, as the error it raises is swallowed.
   */
  function ExtractPrice(url: string, q: Query): (r: Option<int>)
    ensures r.Some? ==> IsSupported(url) && InRange(r.value)
  {
    if !IsSupported(url) then None
    else match ProbeKeys(PriceKeys, q)
      case Found(p) => Some(p)
      case _ => None
  }

  /** A supported link yields `p` exactly when `p` is the first accepted price among the keys. */
  lemma ExtractPriceFirstHit(url: string, q: Query, p: int)
    ensures ExtractPrice(url, q) == Some(p) <==>
      IsSupported(url) && exists i :: 0 <= i < |PriceKeys| && Qualifies(q, PriceKeys[i], p)
                                      && forall j :: 0 <= j < i ==> FallsThrough(q, PriceKeys[j])
  {
    ProbeFirstHit(PriceKeys, q, p);
  }

  /** A supported link with every key falling through yields no price. */
  lemma ExtractPriceNone(url: string, q: Query)
    requires forall j :: 0 <= j < |PriceKeys| ==> FallsThrough(q, PriceKeys[j])
    ensures ExtractPrice(url, q) == None
  {
    ProbeNotFound(PriceKeys, q);
  }

  /** The gate looks at the whole link: a marketplace name in the path or the query counts. */
  lemma DomainAnywhere(before: string, i: int, after: string)
    requires 0 <= i < |SupportedDomains|
    ensures IsSupported(before + SupportedDomains[i] + after)
  {
    var d := SupportedDomains[i];
    LowerOfLowercase(d);
    LowerAppend(before + d, after);
    LowerAppend(before, d);
    var l := Lower(before + d + after);
    assert l == Lower(before) + d + Lower(after);
    assert l[|before|..|before| + |d|] == d;
    OccurrenceContains(l, d, |before|);
    assert Contains(Lower(before + SupportedDomains[i] + after), SupportedDomains[i]);
  }

  /** The gate ignores letter case. */
  lemma GateIgnoresCase(url: string)
    ensures IsSupported(url) <==> IsSupported(Lower(url))
  {
    LowerIdempotent(url);
  }

  /** A digit string needs no normalizing and reads as its value. */
  lemma DigitsParse(d: string)
    requires d != [] && AllDigits(d)
    ensures ParseDecimal(Normalize(d)) == Some(DigitsValue(d))
  {
    NoSpaceOrComma(d);
    WithoutAbsent(d, ' ');
    CommaToDotNoComma(d);
    DotIndexNoDot(d);
    assert IsDigit(d[0]);
    assert d[..|d|] == d;
  }

  lemma {:induction false} CommaToDotNoComma(s: string)
    requires ',' !in s
    ensures CommaToDot(s) == s
  {
    if s != [] {
      CommaToDotNoComma(s[1..]);
      assert s == [s[0]] + s[1..];
    }
  }

  lemma {:induction false} DotIndexNoDot(s: string)
    requires '.' !in s
    ensures DotIndex(s) == |s|
  {
    if s != [] {
      DotIndexNoDot(s[1..]);
    }
  }

  lemma NoSpaceOrComma(d: string)
    requires AllDigits(d)
    ensures ' ' !in d && ',' !in d && '.' !in d
  {
    forall i | 0 <= i < |d| ensures d[i] != ' ' && d[i] != ',' && d[i] != '.' {
      assert IsDigit(d[i]);
    }
  }

  /** The decimal form of any number reads back as that number. */
  lemma DecimalRoundTrip(n: nat)
    ensures ParseDecimal(Normalize(NatToDigits(n))) == Some(n)
  {
    DigitsParse(NatToDigits(n));
    DigitsRoundTrip(n);
  }

  /** A thousands comma reads as a decimal point: `5,000` is five, below the accepted range. */
  lemma CommaIsDecimalPoint(a: string, b: string)
    requires a != [] && AllDigits(a) && AllDigits(b)
    ensures ParseDecimal(Normalize(a + "," + b)) == Some(DigitsValue(a))
  {
    NoSpaceOrComma(a);
    NoSpaceOrComma(b);
    var comma, dot: string := ",", ".";
    var s := a + comma + b;
    assert ' ' !in s;
    WithoutAbsent(s, ' ');
    CommaToDotAppend(a + comma, b);
    CommaToDotAppend(a, comma);
    CommaToDotNoComma(a);
    CommaToDotNoComma(b);
    var t := a + dot + b;
    assert CommaToDot(comma) == dot;
    assert Normalize(s) == t;
    assert t[..|a|] == a && t[|a| + 1..] == b;
    DotIndexAt(t, |a|);
    UnsignedParts(t, |a|);
  }

  lemma CommaToDotAppend(x: string, y: string)
    ensures CommaToDot(x + y) == CommaToDot(x) + CommaToDot(y)
  {
    var l, r := CommaToDot(x + y), CommaToDot(x) + CommaToDot(y);
    forall i | 0 <= i < |l| ensures l[i] == r[i] {
      if i < |x| {
        assert (x + y)[i] == x[i];
      } else {
        assert (x + y)[i] == y[i - |x|];
      }
    }
  }

  /** An unsigned decimal reads as the value of its digits before the point. */
  lemma UnsignedParts(t: string, k: int)
    requires t != [] && IsDigit(t[0]) && DotIndex(t) == k
    requires AllDigits(t[..k]) && (k < |t| ==> AllDigits(t[k + 1..]))
    ensures ParseDecimal(t) == Some(DigitsValue(t[..k]))
  {
  }

  lemma {:induction false} DotIndexAt(s: string, k: int)
    requires 0 <= k < |s| && s[k] == '.' && '.' !in s[..k]
    ensures DotIndex(s) == k
  {
    if k > 0 {
      assert s[..k][0] == s[0];
      assert s[1..][..k - 1] == s[..k][1..];
      DotIndexAt(s[1..], k - 1);
    }
  }

  /** Not one of the letters w, z, k, d in either case: every supported name holds one of them. */
  predicate AvoidsDomainLetters(c: char) {
    c != 'w' && c != 'z' && c != 'k' && c != 'd' && c != 'W' && c != 'Z' && c != 'K' && c != 'D'
  }

  /** A link without any of those letters names no supported shop. */
  lemma LettersLacking(url: string)
    requires forall i :: 0 <= i < |url| ==> AvoidsDomainLetters(url[i])
    ensures !IsSupported(url)
  {
    var l := Lower(url);
    forall i | 0 <= i < |l| ensures AvoidsDomainLetters(l[i]) {
      assert AvoidsDomainLetters(url[i]);
    }
    forall i | 0 <= i < |SupportedDomains| ensures !Contains(l, SupportedDomains[i]) {
      var k := if i == 0 || i == 1 || i == 6 then 0
        else if i == 2 || i == 3 then 1
        else if i == 4 || i == 7 then 3
        else if i == 5 then 7
        else if i == 8 then 2
        else 9;
      LacksDomain(l, i, k);
    }
  }

  /** A text missing the `k`-th letter of a supported name does not contain that name. */
  lemma LacksDomain(l: string, i: int, k: int)
    requires 0 <= i < |SupportedDomains| && 0 <= k < |SupportedDomains[i]|
    requires SupportedDomains[i][k] !in l
    ensures !Contains(l, SupportedDomains[i])
  {
    if Contains(l, SupportedDomains[i]) {
      ContainsNeedsChar(l, SupportedDomains[i], SupportedDomains[i][k]);
    }
  }

  /** A supported link whose only price key holds an accepted number yields that number. */
  lemma PriceParameter(url: string, n: nat)
    requires IsSupported(url) && InRange(n)
    ensures ExtractPrice(url, map["price" := [NatToDigits(n)]]) == Some(n)
  {
    DecimalRoundTrip(n);
    var q := map["price" := [NatToDigits(n)]];
    assert Qualifies(q, PriceKeys[0], n);
  }

  /** A supported link whose only price key holds a number outside the range yields nothing. */
  lemma PriceParameterOutOfRange(url: string, n: nat)
    requires !InRange(n)
    ensures ExtractPrice(url, map["price" := [NatToDigits(n)]]) == None
  {
    DecimalRoundTrip(n);
    var q := map["price" := [NatToDigits(n)]];
    assert FallsThrough(q, PriceKeys[0]);
    assert forall j :: 1 <= j < |PriceKeys| ==> PriceKeys[j] !in q;
    ExtractPriceNone(url, q);
  }

  /** A Wildberries link such as `https://www.wildberries.ru/x?price=5000` yields 5000. */
  lemma WildberriesPriceRead(before: string, after: string)
    ensures ExtractPrice(before + "wildberries.ru" + after, map["price" := ["5000"]]) == Some(5000)
  {
    assert SupportedDomains[0] == "wildberries.ru";
    DomainAnywhere(before, 0, after);
    FiveThousandDigits();
    PriceParameter(before + "wildberries.ru" + after, 5000);
  }

  lemma FiveThousandDigits()
    ensures NatToDigits(5000) == "5000"
  {
    assert NatToDigits(5) == "5";
    assert NatToDigits(50) == "50";
    assert NatToDigits(500) == "500";
  }

  /** A link to an unknown site yields nothing, whatever its query says. */
  lemma UnknownSiteUnpriced(url: string, q: Query)
    requires url == "https://example.com/x?price=5000"
    ensures ExtractPrice(url, q) == None
  {
    LettersLacking(url);
  }

  /** A marketplace link with `price=50` yields nothing: fifty is below the range. */
  lemma BelowFloorRejected()
    ensures ExtractPrice("https://www.ozon.ru/x?price=50", map["price" := ["50"]]) == None
  {
    assert NatToDigits(5) == "5";
    assert NatToDigits(50) == "50";
    PriceParameterOutOfRange("https://www.ozon.ru/x?price=50", 50);
  }
}
