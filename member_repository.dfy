/**
 * The key-value (Redis) member repository. `upsert` stores a member's id under
 * the composite key `guild:<guildId>:member:<memberId>:id`.
 */
module MemberRepository {
  import opened Wrappers
  import opened Identifiers
  import opened CacheBase

  /** A guild member; the fields the upsert path reads. */
  datatype MemberEntity = MemberEntity(guildId: Id<GuildMarker>, id: Id<UserMarker>)

  /** `std::env::VarError`, as far as a missing variable goes. */
  datatype VarError = NotPresent

  /** Failures the Redis client reports (`redis::RedisError`). */
  datatype RedisError = InvalidClientConfig | IoError | ResponseError

  /** `CacheError`: the error half of `CacheResult`. */
  datatype CacheError = Env(varError: VarError) | Redis(redisError: RedisError)

  /**
   * How the outside world answers one upsert: whether `Client::open` accepts
   * the URL, whether connecting succeeds, and whether the `SET` command (`setCommand`) does.
   * `None` is success.
   */
  datatype Network = Network(
    open: string -> Option<RedisError>,
    connect: Option<RedisError>,
    setCommand: Option<RedisError>)

  const REDIS_PASSWORD_VAR: string := "DOCKER_REDIS_REQUIREPASS"

  /** The connection URL: a fixed local endpoint with the password from the environment. */
  function RedisUrl(pass: string): string {
    "redis://:" + pass + "@127.0.0.1/"
  }

  /** `format!("guild:{}:member:{}:id", entity.guild_id, entity.id)`. */
  function MemberKey(entity: MemberEntity): string {
    "guild:" + (EncodeId(entity.guildId) + (":member:" + (EncodeId(entity.id) + ":id")))
  }

  /** The value `SET` stores for `entity.id.get()`: its decimal text. */
  function MemberValue(entity: MemberEntity): string {
    EncodeId(entity.id)
  }

  /** The result `upsert` reports, from the environment and the network's answers, checked in source order. */
  function UpsertOutcome(env: map<string, string>, net: Network): UpdateResult<CacheError> {
    if REDIS_PASSWORD_VAR !in env then Failed(Env(NotPresent))
    else if net.open(RedisUrl(env[REDIS_PASSWORD_VAR])).Some? then
      Failed(Redis(net.open(RedisUrl(env[REDIS_PASSWORD_VAR])).value))
    else if net.connect.Some? then Failed(Redis(net.connect.value))
    else if net.setCommand.Some? then Failed(Redis(net.setCommand.value))
    else Updated
  }

  /** The store after a successful upsert of `entity`. */
  function StoreAfterUpsert(entries: map<string, string>, entity: MemberEntity): map<string, string> {
    entries[MemberKey(entity) := MemberValue(entity)]
  }

  /** The Redis server's keyspace: string keys to string values. */
  class RedisStore {
    var entries: map<string, string>

    constructor (entries: map<string, string>)
      ensures this.entries == entries
    {
      this.entries := entries;
    }

    /** `SET key value`: overwrites or inserts one key. */
    method Set(key: string, value: string)
      modifies this
      ensures entries == old(entries)[key := value]
    {
      entries := entries[key := value];
    }
  }

  class CachedMemberRepository {
    /** The server that `127.0.0.1` reaches. */
    const redis: RedisStore

    constructor (redis: RedisStore)
      ensures this.redis == redis
    {
      this.redis := redis;
    }

    /**
     * `upsert`: read the password, open the client, connect, then `SET` the
     * member key to the member id. A failure at any step is returned and
     * nothing is written; success writes exactly that one key.
     */
    method Upsert(entity: MemberEntity, env: map<string, string>, net: Network) returns (r: UpdateResult<CacheError>)
      modifies redis
      ensures r == UpsertOutcome(env, net)
      ensures redis.entries == if r.Updated? then StoreAfterUpsert(old(redis.entries), entity) else old(redis.entries)
    {
      if REDIS_PASSWORD_VAR !in env {
        return Failed(Env(NotPresent));
      }
      var pass := env[REDIS_PASSWORD_VAR];
      var client := net.open(RedisUrl(pass));
      if client.Some? {
        return Failed(Redis(client.value));
      }
      if net.connect.Some? {
        return Failed(Redis(net.connect.value));
      }
      if net.setCommand.Some? {
        return Failed(Redis(net.setCommand.value));
      }
      redis.Set(MemberKey(entity), MemberValue(entity));
      return Updated;
    }
  }

  /** Splitting at the first `:`: colon-free heads followed by `:` are equal when the whole texts are. */
  lemma SplitAtColon(x: string, u: string, y: string, v: string)
    requires ':' !in x && ':' !in y
    requires |u| > 0 && u[0] == ':' && |v| > 0 && v[0] == ':'
    requires x + u == y + v
    ensures x == y && u == v
  {
    assert x == (x + u)[..|x|] && y == (y + v)[..|y|];
    assert u == (x + u)[|x|..] && v == (y + v)[|y|..];
  }

  lemma DropPrefix(p: string, s: string, t: string)
    requires p + s == p + t
    ensures s == t
  {
    assert s == (p + s)[|p|..] && t == (p + t)[|p|..];
  }

  /** Distinct (guild id, member id) pairs give distinct keys, since decimal ids hold no `:`. */
  lemma MemberKeyInjective(a: MemberEntity, b: MemberEntity)
    requires MemberKey(a) == MemberKey(b)
    ensures a == b
  {
    DropPrefix("guild:", EncodeId(a.guildId) + (":member:" + (EncodeId(a.id) + ":id")),
                         EncodeId(b.guildId) + (":member:" + (EncodeId(b.id) + ":id")));
    SplitAtColon(EncodeId(a.guildId), ":member:" + (EncodeId(a.id) + ":id"),
                 EncodeId(b.guildId), ":member:" + (EncodeId(b.id) + ":id"));
    DropPrefix(":member:", EncodeId(a.id) + ":id", EncodeId(b.id) + ":id");
    SplitAtColon(EncodeId(a.id), ":id", EncodeId(b.id), ":id");
    EncodeIdInjective(a.guildId, b.guildId);
    EncodeIdInjective(a.id, b.id);
  }

  /** A successful upsert sets its key to the member id and leaves every other key as it was. */
  lemma UpsertChangesOnlyItsKey(entries: map<string, string>, entity: MemberEntity, key: string)
    ensures MemberKey(entity) in StoreAfterUpsert(entries, entity)
    ensures StoreAfterUpsert(entries, entity)[MemberKey(entity)] == MemberValue(entity)
    ensures key != MemberKey(entity) ==>
              (key in StoreAfterUpsert(entries, entity) <==> key in entries) &&
              (key in entries ==> StoreAfterUpsert(entries, entity)[key] == entries[key])
  {
  }

  /** Upserting the same member twice leaves the store as one upsert does. */
  lemma UpsertIdempotent(entries: map<string, string>, entity: MemberEntity)
    ensures StoreAfterUpsert(StoreAfterUpsert(entries, entity), entity) == StoreAfterUpsert(entries, entity)
  {
  }

  /** Successful upserts of any two members commute: the order of independent writes is unobservable. */
  lemma UpsertsCommute(entries: map<string, string>, a: MemberEntity, b: MemberEntity)
    ensures StoreAfterUpsert(StoreAfterUpsert(entries, a), b) == StoreAfterUpsert(StoreAfterUpsert(entries, b), a)
  {
    if MemberKey(a) == MemberKey(b) {
      MemberKeyInjective(a, b);
    }
  }

  /** The stored value is the member id's decimal text: decoding it gives the member id back. */
  lemma StoredValueDecodes(entries: map<string, string>, entity: MemberEntity)
    ensures DecodeId<UserMarker>(StoreAfterUpsert(entries, entity)[MemberKey(entity)]) == Success(entity.id)
  {
    DecodeEncodeId(entity.id);
  }

  /**
   * An upsert reports success exactly when the password is set and opening,
   * connecting and `SET` all succeed; a missing password is reported as such.
   */
  lemma UpsertOutcomeSpec(env: map<string, string>, net: Network)
    ensures UpsertOutcome(env, net).Updated? <==>
              REDIS_PASSWORD_VAR in env && net.open(RedisUrl(env[REDIS_PASSWORD_VAR])).None? &&
              net.connect.None? && net.setCommand.None?
    ensures REDIS_PASSWORD_VAR !in env ==> UpsertOutcome(env, net) == Failed(Env(NotPresent))
  {
  }
}
