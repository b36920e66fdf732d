/** Application configuration (src/service/config.rs): feeds reachable by a
    private or a public token, each over a list of calendar sources. Secrets
    are plain strings here. */
module Config {
  import opened Common

  datatype Tokens = Tokens(private: string, public: string)

  /** A calendar source; its only field is the URL. */
  datatype CalendarConfig = CalendarConfig(url: string)

  datatype FeedConfig = FeedConfig(name: string, tokens: Tokens, calendars: seq<CalendarConfig>)

  /** A TCP port, as the source's `u16`. */
  type Port = p: int | 0 <= p < 0x1_0000

  datatype ServerConfig = ServerConfig(host: string, port: Port)

  /** The feed opens for the token when it is its private or its public token. */
  predicate Grants(feed: FeedConfig, token: string) {
    feed.tokens.private == token || feed.tokens.public == token
  }

  /** The first feed, in configured order, that the token opens. */
  function FindFeed(feeds: seq<FeedConfig>, token: string): (r: Option<FeedConfig>)
    ensures r.None? <==> forall i :: 0 <= i < |feeds| ==> !Grants(feeds[i], token)
    ensures r.Some? ==> exists i :: 0 <= i < |feeds| && feeds[i] == r.value && Grants(r.value, token)
                                    && forall j :: 0 <= j < i ==> !Grants(feeds[j], token)
  {
    if feeds == [] then None
    else if Grants(feeds[0], token) then Some(feeds[0])
    else
      var r := FindFeed(feeds[1..], token);
      assert forall i :: 0 <= i < |feeds| - 1 ==> feeds[1..][i] == feeds[i + 1];
      r
  }

  datatype AppConfig = AppConfig(server: ServerConfig, feeds: seq<FeedConfig>) {
    /** `get_feed_by_token`. */
    function GetFeedByToken(token: string): (r: Option<FeedConfig>)
      ensures r.Some? ==> Grants(r.value, token) && r.value in feeds
      ensures r.None? <==> forall i :: 0 <= i < |feeds| ==> !Grants(feeds[i], token)
    {
      FindFeed(feeds, token)
    }
  }

  /** A feed that the token opens, with no earlier feed opening it too, is
      the one found. */
  lemma FirstFeedWins(config: AppConfig, k: int, token: string)
    requires 0 <= k < |config.feeds| && Grants(config.feeds[k], token)
    requires forall j :: 0 <= j < k ==> !Grants(config.feeds[j], token)
    ensures config.GetFeedByToken(token) == Some(config.feeds[k])
  {
    var r := FindFeed(config.feeds, token);
    var i :| 0 <= i < |config.feeds| && config.feeds[i] == r.value && Grants(r.value, token)
             && forall j :: 0 <= j < i ==> !Grants(config.feeds[j], token);
    assert i == k;
  }

  /** `PartialEq for CalendarConfig`: two sources are equal when their URLs are. */
  predicate SameCalendar(a: CalendarConfig, b: CalendarConfig): (same: bool)
    ensures same <==> a == b
  {
    a.url == b.url
  }

  /** `Hash for CalendarConfig`: the hash of the URL under a string hasher. */
  function CalendarHash(c: CalendarConfig, hashString: string -> int): (h: int)
    ensures forall d: CalendarConfig :: d.url == c.url ==> h == hashString(d.url)
  {
    hashString(c.url)
  }

  /** The equality is the value equality of sources, hence an equivalence, and
      equal sources hash equally under every hasher, as a cache key needs. */
  lemma CalendarEqualityIsConsistent(a: CalendarConfig, b: CalendarConfig, hashString: string -> int)
    ensures SameCalendar(a, b) <==> a == b
    ensures SameCalendar(a, b) ==> CalendarHash(a, hashString) == CalendarHash(b, hashString)
  {
  }
}
