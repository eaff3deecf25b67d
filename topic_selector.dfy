/** Which topics the plugin considers replying to: a two-tier waterfall
    (recent quiet topics first, older well-viewed topics only when there is
    no quiet one), then topics in cooldown and topics younger than the
    minimum age are dropped. The topic table is a sequence of records. */
module TopicSelector {
  import opened Common
  import opened KeyStore
  import opened Forum
  import RateLimiter

  // ---------------------------------------------------------------------
  // Generic list operations

  /** `a` is `b` with some elements removed, order kept. */
  predicate Subseq<T(==,!new)>(a: seq<T>, b: seq<T>)
    decreases |b|
  {
    if a == [] then true
    else if b == [] then false
    else if a[0] == b[0] then Subseq(a[1..], b[1..])
    else Subseq(a, b[1..])
  }

  /** Keeps the elements satisfying `p`, in order (`where`, `select`,
      `reject` with the negated condition). */
  function Filter<T(==,!new)>(s: seq<T>, p: T -> bool): (r: seq<T>)
    ensures |r| <= |s|
    ensures forall x :: x in r <==> x in s && p(x)
  {
    if s == [] then []
    else (if p(s[0]) then [s[0]] else []) + Filter(s[1..], p)
  }

  lemma {:induction false} FilterIsSubseq<T(!new)>(s: seq<T>, p: T -> bool)
    ensures Subseq(Filter(s, p), s)
  {
    if s != [] {
      FilterIsSubseq(s[1..], p);
      var r := Filter(s, p);
      if p(s[0]) {
        assert r[0] == s[0] && r[1..] == Filter(s[1..], p);
      } else {
        assert r == Filter(s[1..], p);
        if r != [] {
          assert r[0] in Filter(s[1..], p);
          SubseqSkip(r, s);
        }
      }
    }
  }

  /** A subsequence of the tail whose head differs from `b[0]` is a
      subsequence of the whole. */
  lemma SubseqSkip<T(!new)>(a: seq<T>, b: seq<T>)
    requires b != [] && Subseq(a, b[1..])
    requires a != [] ==> a[0] != b[0]
    ensures Subseq(a, b)
  {
  }

  /** Two successive filters are one filter by the conjunction. */
  lemma {:induction false} FilterFilter<T(!new)>(s: seq<T>, p: T -> bool, q: T -> bool, both: T -> bool)
    requires forall x :: both(x) == (p(x) && q(x))
    ensures Filter(Filter(s, p), q) == Filter(s, both)
  {
    if s != [] {
      FilterFilter(s[1..], p, q, both);
      var head := if p(s[0]) then [s[0]] else [];
      assert Filter(s, p) == head + Filter(s[1..], p);
      FilterAppend(head, Filter(s[1..], p), q);
    }
  }

  lemma {:induction false} FilterAppend<T(!new)>(a: seq<T>, b: seq<T>, p: T -> bool)
    ensures Filter(a + b, p) == Filter(a, p) + Filter(b, p)
  {
    if a == [] {
      assert a + b == b;
    } else {
      var c := a + b;
      assert c != [] && c[0] == a[0] && c[1..] == a[1..] + b;
      FilterAppend(a[1..], b, p);
      var head := if p(a[0]) then [a[0]] else [];
      calc {
        Filter(c, p);
        head + Filter(a[1..] + b, p);
        head + (Filter(a[1..], p) + Filter(b, p));
        (head + Filter(a[1..], p)) + Filter(b, p);
        Filter(a, p) + Filter(b, p);
      }
    }
  }

  /** A filter that rejects every element yields nothing. */
  lemma {:induction false} FilterNone<T(!new)>(s: seq<T>, p: T -> bool)
    requires forall x :: x in s ==> !p(x)
    ensures Filter(s, p) == []
  {
    if s != [] {
      assert s[0] in s;
      FilterNone(s[1..], p);
    }
  }

  /** The first `n` elements (`limit(n)`). */
  function Take<T(==,!new)>(s: seq<T>, n: nat): (r: seq<T>)
    ensures |r| <= n && |r| <= |s|
    ensures r == s[..|r|]
    ensures |r| < n ==> r == s
  {
    if |s| <= n then s else s[..n]
  }

  // ---------------------------------------------------------------------
  // Ordering

  datatype Order = ByCreatedAt | ByLastPostedAt

  /** The sort key; a topic without a last post time never reaches the
      `last_posted_at` ordering (the tier's condition excludes it). */
  function Key(t: Topic, o: Order): int {
    match o
    case ByCreatedAt => t.createdAt
    case ByLastPostedAt => if t.lastPostedAt.Some? then t.lastPostedAt.value else 0
  }

  predicate SortedDesc(s: seq<Topic>, o: Order) {
    forall i, j :: 0 <= i < j < |s| ==> Key(s[i], o) >= Key(s[j], o)
  }

  /** No key in `s` exceeds `bound`. */
  predicate AtMost(s: seq<Topic>, o: Order, bound: int) {
    forall k :: 0 <= k < |s| ==> Key(s[k], o) <= bound
  }

  lemma AtMostOfMultiset(a: seq<Topic>, b: seq<Topic>, x: Topic, o: Order, bound: int)
    requires multiset(a) == multiset(b) + multiset{x}
    requires AtMost(b, o, bound) && Key(x, o) <= bound
    ensures AtMost(a, o, bound)
  {
    forall k | 0 <= k < |a| ensures Key(a[k], o) <= bound {
      assert a[k] in multiset(a);
      if a[k] != x {
        assert a[k] in multiset(b);
        var m :| 0 <= m < |b| && b[m] == a[k];
      }
    }
  }

  lemma SortedCons(h: Topic, rest: seq<Topic>, o: Order)
    requires SortedDesc(rest, o) && AtMost(rest, o, Key(h, o))
    ensures SortedDesc([h] + rest, o)
  {
  }

  function Insert(x: Topic, s: seq<Topic>, o: Order): (r: seq<Topic>)
    requires SortedDesc(s, o)
    ensures SortedDesc(r, o)
    ensures multiset(r) == multiset(s) + multiset{x}
    ensures |r| == |s| + 1
  {
    if s == [] || Key(x, o) >= Key(s[0], o) then [x] + s
    else
      var rest := Insert(x, s[1..], o);
      assert s == [s[0]] + s[1..];
      assert AtMost(s[1..], o, Key(s[0], o));
      AtMostOfMultiset(rest, s[1..], x, o, Key(s[0], o));
      SortedCons(s[0], rest, o);
      [s[0]] + rest
  }

  /** `order(key: :desc)`: the records sorted by decreasing key. */
  function SortDesc(s: seq<Topic>, o: Order): (r: seq<Topic>)
    ensures SortedDesc(r, o)
    ensures multiset(r) == multiset(s)
    ensures |r| == |s|
  {
    if s == [] then []
    else
      assert s == [s[0]] + s[1..];
      Insert(s[0], SortDesc(s[1..], o), o)
  }

  /** `order(key: :desc).limit(n)`. */
  function Top(s: seq<Topic>, o: Order, n: nat): seq<Topic> {
    Take(SortDesc(s, o), n)
  }

  // ---------------------------------------------------------------------
  // The query

  /** `base_scope`: a regular, open, unarchived, undeleted topic with an
      undeleted first post, not a private message and not started by the
      system user. */
  predicate InBaseScope(t: Topic) {
    t.archetype == Regular
    && !t.closed && !t.archived
    && t.deletedAt.None?
    && t.firstPost.Some? && t.firstPost.value.deletedAt.None?
    && t.archetype != PrivateMessage
    && t.userId != SYSTEM_USER_ID
  }

  predicate IsQuiet(t: Topic, cfg: Settings) {
    InBaseScope(t) && t.postsCount <= cfg.quietTopicMaxPosts
  }

  /** `last_posted_at < days.ago` (a missing value never compares) and
      enough views. */
  predicate IsOlderWorthy(t: Topic, cfg: Settings, now: int) {
    InBaseScope(t)
    && t.lastPostedAt.Some? && t.lastPostedAt.value < now - cfg.oldTopicDays * DAY
    && t.views >= cfg.oldTopicMinViews
  }

  /** `new_and_quiet_topics(limit)`. */
  function QuietTopics(topics: seq<Topic>, cfg: Settings, limit: nat): seq<Topic> {
    Top(Filter(topics, t => IsQuiet(t, cfg)), ByCreatedAt, limit)
  }

  /** `older_worthy_topics(limit)`. */
  function OlderWorthyTopics(topics: seq<Topic>, cfg: Settings, now: int, limit: nat): seq<Topic> {
    Top(Filter(topics, t => IsOlderWorthy(t, cfg, now)), ByLastPostedAt, limit)
  }

  /** `filter_cooldown_topics`. */
  function FilterCooldownTopics(s: seq<Topic>, d: Data, now: int): seq<Topic> {
    Filter(s, (t: Topic) => !RateLimiter.InCooldown(d, t.id, now))
  }

  predicate OldEnough(t: Topic, cfg: Settings, now: int) {
    t.createdAt <= now - cfg.minTopicAgeHours * HOUR
  }

  /** `filter_by_age`: nothing to do with a zero minimum age. */
  function FilterByAge(s: seq<Topic>, cfg: Settings, now: int): seq<Topic> {
    if cfg.minTopicAgeHours == 0 then s else Filter(s, t => OldEnough(t, cfg, now))
  }

  /** `limit ||= batch_size`. */
  function EffectiveLimit(limit: Option<nat>, cfg: Settings): nat {
    if limit.Some? then limit.value else cfg.batchSize
  }

  /** The tier the selection draws on. */
  function Tier(topics: seq<Topic>, cfg: Settings, now: int, lim: nat): seq<Topic> {
    var quiet := QuietTopics(topics, cfg, lim);
    if quiet != [] then quiet else OlderWorthyTopics(topics, cfg, now, lim)
  }

  /** `select(limit:)`. */
  function Select(topics: seq<Topic>, d: Data, cfg: Settings, now: int, limit: Option<nat>): seq<Topic> {
    var tier := Tier(topics, cfg, now, EffectiveLimit(limit, cfg));
    FilterByAge(FilterCooldownTopics(tier, d, now), cfg, now)
  }

  /** Whether a topic survives both post-filters. */
  predicate Kept(t: Topic, d: Data, cfg: Settings, now: int) {
    !RateLimiter.InCooldown(d, t.id, now) && (cfg.minTopicAgeHours == 0 || OldEnough(t, cfg, now))
  }

  // ---------------------------------------------------------------------
  // Properties

  /** The post-filters keep exactly the tier's topics that pass both, in
      tier order. */
  lemma SelectIsFilteredTier(topics: seq<Topic>, d: Data, cfg: Settings, now: int, limit: Option<nat>)
    ensures Select(topics, d, cfg, now, limit)
         == Filter(Tier(topics, cfg, now, EffectiveLimit(limit, cfg)), t => Kept(t, d, cfg, now))
  {
    PostFilters(Tier(topics, cfg, now, EffectiveLimit(limit, cfg)), d, cfg, now);
  }

  lemma PostFilters(s: seq<Topic>, d: Data, cfg: Settings, now: int)
    ensures FilterByAge(FilterCooldownTopics(s, d, now), cfg, now) == Filter(s, t => Kept(t, d, cfg, now))
  {
    var p := (t: Topic) => !RateLimiter.InCooldown(d, t.id, now);
    var q := (t: Topic) => OldEnough(t, cfg, now);
    var k := (t: Topic) => Kept(t, d, cfg, now);
    assert FilterCooldownTopics(s, d, now) == Filter(s, p);
    if cfg.minTopicAgeHours == 0 {
      FilterExt(s, p, k);
    } else {
      assert FilterByAge(Filter(s, p), cfg, now) == Filter(Filter(s, p), q);
      FilterFilter(s, p, q, k);
    }
  }

  /** Filters by conditions that agree on the list give the same list. */
  lemma {:induction false} FilterExt<T(!new)>(s: seq<T>, p: T -> bool, q: T -> bool)
    requires forall x :: x in s ==> p(x) == q(x)
    ensures Filter(s, p) == Filter(s, q)
  {
    if s != [] {
      FilterExt(s[1..], p, q);
    }
  }

  /** The waterfall: when the quiet tier has something, the result comes
      from it alone; only when it is empty is the old tier consulted. The
      result is always a subsequence of the chosen tier. */
  lemma Waterfall(topics: seq<Topic>, d: Data, cfg: Settings, now: int, limit: Option<nat>)
    ensures var lim := EffectiveLimit(limit, cfg);
      var quiet := QuietTopics(topics, cfg, lim);
      var r := Select(topics, d, cfg, now, limit);
      (quiet != [] ==> Subseq(r, quiet))
      && (quiet == [] ==> Subseq(r, OlderWorthyTopics(topics, cfg, now, lim)))
  {
    SelectIsFilteredTier(topics, d, cfg, now, limit);
    FilterIsSubseq(Tier(topics, cfg, now, EffectiveLimit(limit, cfg)), t => Kept(t, d, cfg, now));
  }

  /** At most `limit` topics, the configured batch size when none is given. */
  lemma SelectLength(topics: seq<Topic>, d: Data, cfg: Settings, now: int, limit: Option<nat>)
    ensures |Select(topics, d, cfg, now, limit)| <= EffectiveLimit(limit, cfg)
    ensures limit.None? ==> |Select(topics, d, cfg, now, limit)| <= cfg.batchSize
  {
    SelectIsFilteredTier(topics, d, cfg, now, limit);
  }

  /** Every selected topic is in the base scope, in one of the two tiers,
      out of cooldown and, with a positive minimum age, old enough. */
  lemma SelectedTopicsQualify(topics: seq<Topic>, d: Data, cfg: Settings, now: int, limit: Option<nat>)
    ensures forall t :: t in Select(topics, d, cfg, now, limit) ==>
      t in topics
      && InBaseScope(t)
      && (IsQuiet(t, cfg) || IsOlderWorthy(t, cfg, now))
      && !RateLimiter.InCooldown(d, t.id, now)
      && (cfg.minTopicAgeHours > 0 ==> t.createdAt <= now - cfg.minTopicAgeHours * HOUR)
  {
    SelectIsFilteredTier(topics, d, cfg, now, limit);
    var lim := EffectiveLimit(limit, cfg);
    TierMembers(topics, cfg, now, lim);
  }

  lemma TierMembers(topics: seq<Topic>, cfg: Settings, now: int, lim: nat)
    ensures forall t :: t in QuietTopics(topics, cfg, lim) ==> t in topics && IsQuiet(t, cfg)
    ensures forall t :: t in OlderWorthyTopics(topics, cfg, now, lim) ==> t in topics && IsOlderWorthy(t, cfg, now)
    ensures forall t :: t in Tier(topics, cfg, now, lim) ==> t in topics && (IsQuiet(t, cfg) || IsOlderWorthy(t, cfg, now))
  {
    var qs := SortDesc(Filter(topics, t => IsQuiet(t, cfg)), ByCreatedAt);
    var os := SortDesc(Filter(topics, t => IsOlderWorthy(t, cfg, now)), ByLastPostedAt);
    forall t | t in QuietTopics(topics, cfg, lim) ensures t in topics && IsQuiet(t, cfg) {
      assert t in multiset(qs);
    }
    forall t | t in OlderWorthyTopics(topics, cfg, now, lim) ensures t in topics && IsOlderWorthy(t, cfg, now) {
      assert t in multiset(os);
    }
  }

  /** The quiet tier holds the newest quiet topics: ordered by creation,
      newest first, and no quiet topic left out is newer than one taken;
      below the limit it holds every quiet topic. */
  lemma QuietTierIsTopN(topics: seq<Topic>, cfg: Settings, lim: nat)
    ensures SortedDesc(QuietTopics(topics, cfg, lim), ByCreatedAt)
    ensures forall t :: t in QuietTopics(topics, cfg, lim) ==> t.postsCount <= cfg.quietTopicMaxPosts
    ensures multiset(QuietTopics(topics, cfg, lim)) <= multiset(Filter(topics, t => IsQuiet(t, cfg)))
    ensures |QuietTopics(topics, cfg, lim)| < lim ==>
      multiset(QuietTopics(topics, cfg, lim)) == multiset(Filter(topics, t => IsQuiet(t, cfg)))
    ensures forall x, y ::
      (x in QuietTopics(topics, cfg, lim)
       && y in multiset(Filter(topics, t => IsQuiet(t, cfg))) - multiset(QuietTopics(topics, cfg, lim)))
      ==> y.createdAt <= x.createdAt
  {
    TierMembers(topics, cfg, 0, lim);
    TopN(Filter(topics, t => IsQuiet(t, cfg)), ByCreatedAt, lim);
  }

  /** The old tier holds the most recently active old-worthy topics,
      ordered by last post time, newest first. */
  lemma OldTierIsTopN(topics: seq<Topic>, cfg: Settings, now: int, lim: nat)
    ensures SortedDesc(OlderWorthyTopics(topics, cfg, now, lim), ByLastPostedAt)
    ensures forall t :: t in OlderWorthyTopics(topics, cfg, now, lim) ==>
      t.lastPostedAt.Some? && t.lastPostedAt.value < now - cfg.oldTopicDays * DAY
      && t.views >= cfg.oldTopicMinViews
    ensures multiset(OlderWorthyTopics(topics, cfg, now, lim)) <= multiset(Filter(topics, t => IsOlderWorthy(t, cfg, now)))
    ensures |OlderWorthyTopics(topics, cfg, now, lim)| < lim ==>
      multiset(OlderWorthyTopics(topics, cfg, now, lim)) == multiset(Filter(topics, t => IsOlderWorthy(t, cfg, now)))
    ensures forall x, y ::
      (x in OlderWorthyTopics(topics, cfg, now, lim)
       && y in multiset(Filter(topics, t => IsOlderWorthy(t, cfg, now))) - multiset(OlderWorthyTopics(topics, cfg, now, lim)))
      ==> y.lastPostedAt.Some? && y.lastPostedAt.value <= x.lastPostedAt.value
  {
    var all := Filter(topics, t => IsOlderWorthy(t, cfg, now));
    var tier := OlderWorthyTopics(topics, cfg, now, lim);
    TierMembers(topics, cfg, now, lim);
    TopN(all, ByLastPostedAt, lim);
    forall x: Topic, y: Topic | x in tier && y in multiset(all) - multiset(tier)
      ensures y.lastPostedAt.Some? && y.lastPostedAt.value <= x.lastPostedAt.value
    {
      assert y in multiset(all);
      assert y in all;
      assert IsOlderWorthy(y, cfg, now);
      assert Key(y, ByLastPostedAt) <= Key(x, ByLastPostedAt);
    }
  }

  /** Taking a prefix of a sorted permutation yields the top `n`. */
  lemma TopN(s: seq<Topic>, o: Order, n: nat)
    ensures SortedDesc(Top(s, o, n), o)
    ensures multiset(Top(s, o, n)) <= multiset(s)
    ensures |Top(s, o, n)| < n ==> multiset(Top(s, o, n)) == multiset(s)
    ensures forall x, y :: x in Top(s, o, n) && y in multiset(s) - multiset(Top(s, o, n)) ==> Key(y, o) <= Key(x, o)
  {
    var sorted := SortDesc(s, o);
    var k := |Top(s, o, n)|;
    assert Top(s, o, n) == sorted[..k];
    SplitMultiset(sorted, k);
    SortedPrefixDominates(sorted, o, k);
  }

  lemma SplitMultiset(s: seq<Topic>, k: nat)
    requires k <= |s|
    ensures multiset(s) == multiset(s[..k]) + multiset(s[k..])
    ensures multiset(s) - multiset(s[..k]) == multiset(s[k..])
  {
    assert s == s[..k] + s[k..];
  }

  /** In a sorted list, everything before position `k` has a key at least
      that of everything from `k` on. */
  lemma SortedPrefixDominates(sorted: seq<Topic>, o: Order, k: nat)
    requires SortedDesc(sorted, o) && k <= |sorted|
    ensures forall x, y :: x in sorted[..k] && y in multiset(sorted[k..]) ==> Key(y, o) <= Key(x, o)
  {
    forall x, y | x in sorted[..k] && y in multiset(sorted[k..]) ensures Key(y, o) <= Key(x, o) {
      var i :| 0 <= i < k && sorted[..k][i] == x;
      var j :| 0 <= j < |sorted| - k && sorted[k..][j] == y;
      assert sorted[i] == x && sorted[k + j] == y;
    }
  }

  /** A quiet tier whose topics are all in cooldown yields nothing, even
      though the old tier might have had candidates. */
  lemma AllCooledDownYieldsNothing(topics: seq<Topic>, d: Data, cfg: Settings, now: int, limit: Option<nat>)
    requires QuietTopics(topics, cfg, EffectiveLimit(limit, cfg)) != []
    requires forall t :: t in QuietTopics(topics, cfg, EffectiveLimit(limit, cfg)) ==> RateLimiter.InCooldown(d, t.id, now)
    ensures Select(topics, d, cfg, now, limit) == []
  {
    SelectIsFilteredTier(topics, d, cfg, now, limit);
    FilterNone(QuietTopics(topics, cfg, EffectiveLimit(limit, cfg)), t => Kept(t, d, cfg, now));
  }

  /** With a zero minimum age the age filter keeps everything. */
  lemma AgeFilterIdentityAtZero(s: seq<Topic>, cfg: Settings, now: int)
    requires cfg.minTopicAgeHours == 0
    ensures FilterByAge(s, cfg, now) == s
  {
  }
}
