/**
 * The cached current user (the bot's own account) and its total conversion
 * from the origin service's `CurrentUser` payload.
 */
module Users {
  import opened Wrappers
  import opened Decimal
  import opened Identifiers

  /** Avatar hash; an opaque value that is copied, never computed on. */
  datatype ImageHash = ImageHash(bytes: seq<bv8>, animated: bool)

  /** Account flag bits; an opaque value that is copied, never computed on. */
  datatype UserFlags = UserFlags(bits: int)

  type U16 = n: int | 0 <= n < 0x1_0000

  /** The origin payload. Only the fields the conversion reads, and a few it drops. */
  datatype CurrentUser = CurrentUser(
    avatar: Option<ImageHash>,
    bot: bool,
    discriminator: U16,
    email: Option<string>,
    flags: Option<UserFlags>,
    id: Id<UserMarker>,
    locale: Option<string>,
    mfaEnabled: bool,
    name: string,
    publicFlags: Option<UserFlags>,
    verified: Option<bool>)

  datatype CachedCurrentUser = CachedCurrentUser(
    avatar: Option<ImageHash>,
    discriminator: string,
    flags: Option<UserFlags>,
    id: Id<UserMarker>,
    username: string,
    publicFlags: Option<UserFlags>)
  {
    function Avatar(): Option<ImageHash> { avatar }

    function Discriminator(): string { discriminator }

    function Flags(): Option<UserFlags> { flags }

    function Username(): string { username }

    function PublicFlags(): Option<UserFlags> { publicFlags }

    /** `Entity::id`. */
    function EntityId(): Id<UserMarker> { id }
  }

  /** `From<CurrentUser> for CachedCurrentUser`: field by field, with the discriminator written as decimal text. */
  function FromCurrentUser(other: CurrentUser): (cached: CachedCurrentUser)
    ensures Canonical(cached.discriminator) && Value(cached.discriminator) == other.discriminator
  {
    CachedCurrentUser(
      avatar := other.avatar,
      discriminator := Encode(other.discriminator),
      flags := other.flags,
      id := other.id,
      username := other.name,
      publicFlags := other.publicFlags)
  }

  /**
   * The conversion is total and every accessor of its result reports the
   * origin field it came from: avatar and both flag sets unchanged, the
   * username from `name`, and the entity id from `id`.
   */
  lemma FromCurrentUserFields(other: CurrentUser)
    ensures var cached := FromCurrentUser(other);
      && cached.Avatar() == other.avatar
      && cached.Flags() == other.flags
      && cached.PublicFlags() == other.publicFlags
      && cached.Username() == other.name
      && cached.EntityId() == other.id
  {
  }

  /** The cached discriminator is the decimal text of the origin's: it parses back to it. */
  lemma CachedDiscriminatorParses(other: CurrentUser)
    ensures ParseU64(FromCurrentUser(other).Discriminator()) == Success(other.discriminator)
    ensures Canonical(FromCurrentUser(other).Discriminator())
  {
    ParseEncode(other.discriminator);
  }

  /**
   * Nothing the cache keeps is lost: two payloads that convert to the same
   * cached user agree on every field the cached user has.
   */
  lemma FromCurrentUserKeepsFields(a: CurrentUser, b: CurrentUser)
    requires FromCurrentUser(a) == FromCurrentUser(b)
    ensures a.avatar == b.avatar && a.discriminator == b.discriminator && a.flags == b.flags
    ensures a.id == b.id && a.name == b.name && a.publicFlags == b.publicFlags
  {
    CachedDiscriminatorParses(a);
    CachedDiscriminatorParses(b);
  }
}
