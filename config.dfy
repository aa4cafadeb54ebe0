/**
 * The three pure helpers of the configuration file: the start-up configuration check,
 * the link to a post in the publication channel, and the thousands grouping of prices.
 * The values read from the environment are parameters here.
 */
module Config {
  import opened Wrappers
  import opened Text

  /** The configuration values the dialogues consult. */
  datatype Settings = Settings(channelId: string, minReviewLength: int, maxReviewLength: int)

  /** What the bot uses when the environment does not say otherwise. */
  const DefaultSettings := Settings("@gipervygoda", 10, 1000)

  /** Python truthiness of an optional string (`None` and `''` are false). */
  predicate TextGiven(s: Option<string>) {
    s.Some? && s.value != ""
  }

  /** Python truthiness of an optional integer (`None` and `0` are false). */
  predicate NumberGiven(n: Option<int>) {
    n.Some? && n.value != 0
  }

  datatype ConfigError = TokenMissing | AdminMissing | TokenWithoutColon | ChannelMissing

  /** The error list that the configuration check builds, in the order it appends. */
  function ConfigErrors(token: Option<string>, adminId: Option<int>, channel: string): (errs: seq<ConfigError>)
    ensures TokenMissing in errs <==> !TextGiven(token)
    ensures AdminMissing in errs <==> !NumberGiven(adminId)
    ensures TokenWithoutColon in errs <==> TextGiven(token) && ':' !in token.value
    ensures ChannelMissing in errs <==> channel == ""
    ensures forall i, j :: 0 <= i < j < |errs| ==> errs[i] != errs[j]
  {
    (if !TextGiven(token) then [TokenMissing] else [])
    + (if !NumberGiven(adminId) then [AdminMissing] else [])
    + (if TextGiven(token) && ':' !in token.value then [TokenWithoutColon] else [])
    + (if channel == "" then [ChannelMissing] else [])
  }

  /** The configuration check passes exactly when token, operator and channel are usable. */
  function ValidateConfig(token: Option<string>, adminId: Option<int>, channel: string): (ok: bool)
    ensures ok <==> TextGiven(token) && NumberGiven(adminId) && ':' in token.value && channel != ""
  {
    ConfigErrors(token, adminId, channel) == []
  }

  /** A missing token is reported once: the missing-colon error needs a token to look at. */
  lemma MissingTokenReportedOnce(token: Option<string>, adminId: Option<int>, channel: string)
    requires !TextGiven(token)
    ensures var errs := ConfigErrors(token, adminId, channel);
      errs[0] == TokenMissing && TokenWithoutColon !in errs
      && multiset(errs)[TokenMissing] == 1
  {
  }

  /** A Telegram link that ends with the segment of message `messageId`. */
  predicate IsPostLink(url: string, messageId: int) {
    var tail := "/" + IntToString(messageId);
    |url| >= 13 + |tail| && url[..13] == "https://t.me/" && url[|url| - |tail|..] == tail
  }

  lemma PostLinkShape(head: string, middle: string, messageId: int)
    requires |head| >= 13 && head[..13] == "https://t.me/"
    ensures IsPostLink(head + middle + "/" + IntToString(messageId), messageId)
  {
    var tail := "/" + IntToString(messageId);
    var url := head + middle + "/" + IntToString(messageId);
    assert url == head + (middle + tail);
    assert url[..13] == head[..13];
    assert url[|url| - |tail|..] == tail;
  }

  /** The link to message `messageId` of the publication channel. */
  function ChannelMessageUrl(channel: string, messageId: int): (url: string)
    ensures IsPostLink(url, messageId)
  {
    if StartsWith(channel, "-100") then
      PostLinkShape("https://t.me/c/", RemoveAll(channel, "-100"), messageId);
      "https://t.me/c/" + RemoveAll(channel, "-100") + "/" + IntToString(messageId)
    else
      PostLinkShape("https://t.me/", RemoveAll(channel, "@"), messageId);
      "https://t.me/" + RemoveAll(channel, "@") + "/" + IntToString(messageId)
  }

  /** A channel given by handle links by its name with every `@` dropped. */
  lemma HandleChannelUrl(channel: string, messageId: int)
    requires !StartsWith(channel, "-100")
    ensures ChannelMessageUrl(channel, messageId)
      == "https://t.me/" + Without(channel, '@') + "/" + IntToString(messageId)
  {
    RemoveOneChar(channel, '@');
  }

  /** A numeric channel whose rest holds no further `-100` links by the digits after the prefix. */
  lemma NumericChannelUrl(rest: string, messageId: int)
    requires !Contains(rest, "-100")
    ensures ChannelMessageUrl("-100" + rest, messageId)
      == "https://t.me/c/" + rest + "/" + IntToString(messageId)
  {
    var channel := "-100" + rest;
    assert StartsWith(channel, "-100");
    assert channel[4..] == rest;
    RemoveAbsent(rest, "-100");
  }

  /**
   * Removing `-100` everywhere can assemble a new `-100`: the channel `-1-10000`
   * links to `c/-100`, so the link may still contain the prefix it was meant to lose.
   */
  lemma RemovalCanLeavePrefix()
    ensures RemoveAll("-1-10000", "-100") == "-100"
  {
    var s := "-1-10000";
    assert s[..4][2] != "-100"[2] && s[1..][..4][1] != "-100"[1];
    assert s[1..][1..] == "-10000" && StartsWith("-10000", "-100");
    assert "-10000"[4..] == "00";
    assert !StartsWith("00", "-100") && !StartsWith("0", "-100");
    assert RemoveAll("00", "-100") == "00";
  }

  /** The digits of `d` in groups of three from the right, separated by single spaces. */
  function Group(d: string): string
    decreases |d|
  {
    if |d| <= 3 then d else Group(d[..|d| - 3]) + " " + d[|d| - 3..]
  }

  /** `f"{int(price):,}".replace(',', ' ')` for an integer price. */
  function FormatPrice(price: int): (r: string)
    ensures Without(r, ' ') == IntToString(price)
  {
    var d := NatToDigits(if price < 0 then -price else price);
    GroupRoundTrip(d);
    WithoutAppend(if price < 0 then "-" else "", Group(d), ' ');
    (if price < 0 then "-" else "") + Group(d)
  }

  /**
   * A formatted price is a minus sign exactly for a negative price, followed by the digits
   * of its magnitude with one space per full group of three, standing every fourth position
   * from the right.
   */
  lemma FormatPriceLayout(price: int)
    ensures var r := FormatPrice(price);
      r != [] && (r[0] == '-' <==> price < 0)
    ensures var r := FormatPrice(price);
      var g := if price < 0 then r[1..] else r;
      var n := |NatToDigits(if price < 0 then -price else price)|;
      && |g| == n + (n - 1) / 3
      && forall i :: 0 <= i < |g| ==> (g[i] == ' ' <==> (|g| - i) % 4 == 0)
  {
    var d := NatToDigits(if price < 0 then -price else price);
    var g := Group(d);
    GroupLayout(d);
    if price < 0 {
      assert FormatPrice(price) == "-" + g && FormatPrice(price)[1..] == g;
    } else {
      assert FormatPrice(price) == g;
      GroupHead(d);
    }
  }

  /** Grouping starts with the first digit. */
  lemma {:induction false} GroupHead(d: string)
    requires d != []
    ensures Group(d) != [] && Group(d)[0] == d[0]
    decreases |d|
  {
    if |d| > 3 {
      GroupHead(d[..|d| - 3]);
    }
  }

  /** Spaces stand exactly at every fourth position counted from the right end. */
  lemma {:induction false} GroupLayout(d: string)
    requires d != [] && AllDigits(d)
    ensures |Group(d)| == |d| + (|d| - 1) / 3
    ensures forall i :: 0 <= i < |Group(d)| ==> (Group(d)[i] == ' ' <==> (|Group(d)| - i) % 4 == 0)
    decreases |d|
  {
    if |d| > 3 {
      var head := d[..|d| - 3];
      GroupLayout(head);
      var g', g := Group(head), Group(d);
      assert g == g' + " " + d[|d| - 3..];
      NoSpaceInDigits(d[|d| - 3..]);
      SpacesEveryFourth(g', d[|d| - 3..]);
    }
  }

  /** Appending a separator and three non-space characters keeps the spaces every fourth from the right. */
  lemma SpacesEveryFourth(g: string, tail: string)
    requires |tail| == 3 && ' ' !in tail
    requires forall i :: 0 <= i < |g| ==> (g[i] == ' ' <==> (|g| - i) % 4 == 0)
    ensures var h := g + " " + tail;
      forall i :: 0 <= i < |h| ==> (h[i] == ' ' <==> (|h| - i) % 4 == 0)
  {
    var h := g + " " + tail;
    forall i | 0 <= i < |h| ensures h[i] == ' ' <==> (|h| - i) % 4 == 0 {
      if i < |g| {
        assert h[i] == g[i];
        assert |h| - i == (|g| - i) + 4;
      } else if i > |g| {
        assert h[i] == tail[i - |g| - 1];
      }
    }
  }

  /** Deleting the separators gives back the digits. */
  lemma {:induction false} GroupRoundTrip(d: string)
    requires AllDigits(d)
    ensures Without(Group(d), ' ') == d
    decreases |d|
  {
    NoSpaceInDigits(d);
    if |d| > 3 {
      var head, tail := d[..|d| - 3], d[|d| - 3..];
      assert Group(d) == Group(head) + " " + tail;
      GroupRoundTrip(head);
      NoSpaceInDigits(tail);
      JoinWithout(Group(head), head, tail);
      assert head + tail == d;
    } else {
      WithoutAbsent(d, ' ');
    }
  }

  lemma NoSpaceInDigits(d: string)
    requires AllDigits(d)
    ensures ' ' !in d
  {
    forall i | 0 <= i < |d| ensures d[i] != ' ' {
      assert IsDigit(d[i]);
    }
  }

  /** Joining with one separator and deleting separators concatenates what is left. */
  lemma JoinWithout(g: string, head: string, tail: string)
    requires Without(g, ' ') == head && ' ' !in tail
    ensures Without(g + " " + tail, ' ') == head + tail
  {
    var sep: string := " ";
    assert Without(sep, ' ') == [] by {
      assert sep[0] == ' ' && sep[1..] == [];
    }
    calc {
      Without(g + sep + tail, ' ');
      == { WithoutAppend(g + sep, tail, ' '); }
      Without(g + sep, ' ') + Without(tail, ' ');
      == { WithoutAppend(g, sep, ' '); WithoutAbsent(tail, ' '); }
      head + [] + tail;
      == { assert head + [] == head; }
      head + tail;
    }
  }

  /** Seventy thousand, as the welcome text writes it, is formatted "70 000". */
  lemma FormatSeventyThousand()
    ensures FormatPrice(70000) == "70 000"
  {
    assert NatToDigits(7) == "7";
    assert NatToDigits(70) == "70";
    assert NatToDigits(700) == "700";
    assert NatToDigits(7000) == "7000";
    assert NatToDigits(70000) == "70000";
    assert "70000"[..2] == "70" && "70000"[2..] == "000";
  }
}
