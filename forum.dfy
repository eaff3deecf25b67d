/** The forum records the plugin reads, and the site settings it consults.
    Times are whole seconds since the epoch. */
module Forum {
  import opened Common

  /** Discourse's `Archetype.default` is "regular"; "banner" topics exist too. */
  datatype Archetype = Regular | PrivateMessage | Banner

  /** The part of a post the plugin reads: its raw text and soft deletion. */
  datatype Post = Post(raw: string, deletedAt: Option<int>)

  datatype Topic = Topic(
    id: int,
    userId: int,
    archetype: Archetype,
    closed: bool,
    archived: bool,
    deletedAt: Option<int>,
    createdAt: int,
    lastPostedAt: Option<int>,
    postsCount: int,
    views: int,
    firstPost: Option<Post>)

  /** A forum user and the addresses of its `user_emails` rows. */
  datatype User = User(id: int, emails: seq<string>)

  /** `Discourse.system_user.id`. */
  const SYSTEM_USER_ID: int := -1

  const HOUR: nat := 3600
  const DAY: nat := 86400

  /** The `SiteSetting.ai_replier_*` values read by the core. */
  datatype Settings = Settings(
    enabled: bool,
    apiKey: string,
    apiUrl: string,
    model: string,
    systemPrompt: string,
    rateLimitPerHour: int,
    cooldownHours: int,
    minTopicAgeHours: int,
    quietTopicMaxPosts: int,
    oldTopicDays: int,
    oldTopicMinViews: int,
    batchSize: nat,
    requestTimeout: int,
    maxRetries: int)
}
