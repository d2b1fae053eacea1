# HarTex entity cache: a Dafny model

This project models the entity-cache layer of HarTex, a Discord bot. The layer keeps local copies of remote Discord objects (guilds, users, members, stickers) so that request handlers never have to ask Discord on the hot path. The model covers these parts:

- **Typed identifiers** (`Identifiers`, `Decimal`). An `Id<Marker>` is a non-zero 64-bit integer tagged with an entity kind. The relational backend stores identifiers as decimal text, and every read path parses that text back with `str::parse::<u64>` followed by `Id::new_checked`. `Decimal.ParseU64` follows Rust's unsigned `FromStr` step by step: empty text is `Empty`, a lone sign is `InvalidDigit`, a leading `+` is accepted, and each digit goes through a checked multiply, a digit check and a checked add, so overflow is `PosOverflow`. `Decimal.Encode` is the `Display` text. The central lemma is that the two round-trip.
- **Row decoders** (`Rows`, `Guilds`, `Whitelist`). A row maps column names to values. A decoder is a partial function from a row to an entity or a `RowError`. Where the source `unwrap`s a failed parse or a zero id, the model returns `MalformedRow(column, cause)`.
- **The cached current user** (`Users`). `From<CurrentUser>` is a total field-by-field conversion, and the accessors read fields back.
- **The Redis member repository** (`MemberRepository`). `CachedMemberRepository.Upsert` runs the source's steps in order: read `DOCKER_REDIS_REQUIREPASS`, open the client, connect, then `SET guild:<guildId>:member:<memberId>:id` to the member id. It is proved against `UpsertOutcome` and `StoreAfterUpsert`, and lemmas about those give key injectivity, "only this key changes", idempotence and commutation.
- **The repository contract and the sticker relations** (`Repository`, `Stickers`). Each entity kind is a keyed collection with get, upsert and a filtered stream. `PackStickers` (the one-to-many `stickers`) is a filter. `StickerPack` (many-to-one) is a lookup through the pack id a sticker carries. Both are read-only. Lemmas show they describe one association from both ends.
- **Small pieces** (`CacheBase`, `Limitable`). The cache facade holds one backend handle. `UpdateResult` is the write outcome, `Result<(), B::Error>`. `NonZero` clamps a `u32` to a non-zero value.

Two behaviours of the source worth noting:

- The cached discriminator is the origin's `u16` written as decimal text (`users.rs:80`), so it is canonical and parses back to the origin value.
- The member repository's `get` is `todo!()` (`member.rs:36`), so a value written by `upsert` is never read back through the repository.

## Model

| member | source | states |
|---|---|---|
| Decimal.ParseU64 | cache/discord/src/entities/postgres_backend_include/guilds.rs:30 | `str::parse::<u64>`: `Empty` exactly for the empty text, and an accepted text is, after an optional `+`, a digit string whose value is the result (full characterisation in `ParseU64Spec`) |
| Decimal.Encode | discord-frontend/hartex-discord-entitycache-repositories/src/member.rs:44 | the decimal text of n is a canonical digit string (no redundant leading zero) whose value is n |
| Decimal.Accumulate | cache/discord/src/entities/postgres_backend_include/guilds.rs:30 | the digit loop never reports `Empty`; an empty input is caught before the loop |
| Decimal.AccumulateSpec | cache/discord/src/entities/postgres_backend_include/guilds.rs:30 | the checked digit loop succeeds exactly when the rest is all digits and the total fits in 2^64-1, gives that total, and reports `PosOverflow` for all-digit text that does not fit |
| Decimal.ParseU64Spec | cache/discord/src/entities/postgres_backend_include/guilds.rs:30 | `parse::<u64>` accepts exactly an optional `+` then a non-empty digit string of value at most 2^64-1, and returns that value; `Empty` exactly for ""; all-digit overflow is `PosOverflow` |
| Decimal.ParseEncode | discord-frontend/model/src/db/whitelist.rs:43 | for every n at most 2^64-1, `parse(Encode(n)) == n` |
| Decimal.ParseEncodeOverflow | cache/discord/src/entities/postgres_backend_include/guilds.rs:30 | the decimal text of any n above 2^64-1 is rejected with `PosOverflow`, never truncated |
| Decimal.ParseCanonical | discord-frontend/model/src/db/whitelist.rs:43 | text that parses to n is `Encode(n)` once the sign and leading zeros are stripped (the converse of the round trip) |
| Decimal.EncodeHasNoColon | discord-frontend/hartex-discord-entitycache-repositories/src/member.rs:44 | decimal text never contains the key separator `:` |
| Identifiers.NewChecked | discord-frontend/model/src/db/whitelist.rs:43 | `Id::new_checked(n)` gives an id exactly when n is not 0, and that id holds n |
| Identifiers.DecodeId | discord-frontend/model/src/db/whitelist.rs:43 | `Id::new_checked(text.parse::<u64>())` with both failures as values: `Parse(Empty)` exactly for "", a decoded id holds the value of the digits, and `Zero` only for all-digit text of value 0 |
| Identifiers.EncodeId | discord-frontend/hartex-discord-entitycache-repositories/src/member.rs:44 | an id's `Display` text is a canonical digit string without `:` |
| Identifiers.DecodeEncodeId | discord-frontend/model/src/db/whitelist.rs:42-46 | the decimal text of an id decodes back to the same id |
| Identifiers.DecodeEncode | cache/discord/src/entities/postgres_backend_include/guilds.rs:29-34 | for every 0 < n < 2^64 the decimal text of n decodes to the id with value n |
| Identifiers.DecodeIdSpec | cache/discord/src/entities/postgres_backend_include/guilds.rs:30 | decoding succeeds exactly for optional `+` plus digits of value in 1..2^64-1, with that value; empty is `Empty`, zero is `Zero`, all-digit overflow is `PosOverflow`, and text with a non-digit fails with a parse error |
| Identifiers.DecodeRejectsZero | cache/discord/src/entities/postgres_backend_include/guilds.rs:30 | the text "0" is rejected with `Zero` |
| Identifiers.DecodeIdCanonical | discord-frontend/model/src/db/whitelist.rs:43 | text that decodes to an id is that id's decimal text once the sign and leading zeros are stripped |
| Identifiers.EncodeIdInjective | discord-frontend/hartex-discord-entitycache-repositories/src/member.rs:44 | distinct ids of one kind have distinct decimal text |
| Rows.TryGetText | discord-frontend/model/src/db/whitelist.rs:42 | `try_get::<String>` succeeds exactly on a text column and returns its text; an absent column is `ColumnNotFound`, any other value `ColumnDecode` |
| Rows.TryGetTimestamp | discord-frontend/model/src/db/whitelist.rs:47 | `try_get::<OffsetDateTime>` succeeds exactly on a timestamp column and returns it unchanged; otherwise `ColumnNotFound` or `ColumnDecode` |
| Rows.TryGetId | discord-frontend/model/src/db/whitelist.rs:42-43 | an id column succeeds exactly when it is text that decodes, giving the decoded id; text that does not decode is `MalformedRow(column, cause)`; a failed text read passes its error on |
| Rows.TryGetIdEncoded | discord-frontend/model/src/db/whitelist.rs:45-46 | a column holding the decimal text of a non-zero 64-bit n reads as the id n |
| Guilds.GuildFromRow | cache/discord/src/entities/postgres_backend_include/guilds.rs:27-35 | `CachedGuild::from_row`: a decoded guild's id is what the text of column `id` decodes to, and every failure names column `id` |
| Guilds.CachedGuild.EntityId | cache/discord/src/entities/postgres_backend_include/guilds.rs:32-34 | `Entity::id` of a guild is the id `from_row` built it with (used by `GuildFromRowSpec`) |
| Guilds.GuildFromRowSpec | cache/discord/src/entities/postgres_backend_include/guilds.rs:28-35 | `from_row` succeeds exactly when `id` is present, is text and decodes, and the guild's id is the decoded value; a missing column, a non-text column and bad text each give their own error and no guild |
| Guilds.GuildFromEncodedRow | cache/discord/src/entities/postgres_backend_include/guilds.rs:29-34 | for every 0 < n < 2^64, a row whose `id` is the decimal text of n decodes to the guild with id n |
| Guilds.GuildZeroIdRejected | cache/discord/src/entities/postgres_backend_include/guilds.rs:30 | a row with `id` = "0" gives `MalformedRow("id", Zero)` |
| Guilds.GuildFromRowOnlyReadsId | cache/discord/src/entities/postgres_backend_include/guilds.rs:32-34 | rows that agree on `id` decode to the same result |
| Guilds.GuildRowRoundTrip | cache/discord/src/entities/postgres_backend_include/guilds.rs:27-35 | decoding the row written for a guild gives back that guild |
| Whitelist.WhitelistFromRow | discord-frontend/model/src/db/whitelist.rs:40-55 | `WhitelistedGuild::from_row`: on success `id` and `owner_id` are what their text decodes to, `name` is the text verbatim and `whitelisted_since` the timestamp unchanged; every failure names one of the four columns |
| Whitelist.WhitelistFromRowSuccess | discord-frontend/model/src/db/whitelist.rs:42-54 | decoding succeeds exactly when all four column reads succeed, and the guild is then built from those four reads |
| Whitelist.WhitelistFromRowFailure | discord-frontend/model/src/db/whitelist.rs:42-47 | the error returned is that of the first failing column in reading order |
| Whitelist.WhitelistBadOwnerIdRejected | discord-frontend/model/src/db/whitelist.rs:45-46 | zero, non-numeric or overflowing `owner_id` text gives `MalformedRow("owner_id", cause)` even when `id` and `name` are good |
| Whitelist.WhitelistRowRoundTrip | discord-frontend/model/src/db/whitelist.rs:41-55 | decoding the row written for a whitelisted guild gives back that guild |
| Whitelist.WhitelistFromRowOnlyReadsItsColumns | discord-frontend/model/src/db/whitelist.rs:42-47 | rows that agree on the four columns decode alike |
| Users.FromCurrentUser | cache/discord/src/entities/users.rs:76-87 | `From<CurrentUser>`: total, and the discriminator becomes canonical decimal text whose value is the origin's `u16`; the copied fields are stated through the accessors by `FromCurrentUserFields` |
| Users.CachedCurrentUser.Avatar | cache/discord/src/entities/users.rs:43-45 | `avatar()`: the stored avatar; after conversion it is the origin's (`FromCurrentUserFields`) |
| Users.CachedCurrentUser.Discriminator | cache/discord/src/entities/users.rs:48-50 | `discriminator()`: the stored text; after conversion it parses to the origin's discriminator (`CachedDiscriminatorParses`) |
| Users.CachedCurrentUser.Flags | cache/discord/src/entities/users.rs:53-55 | `flags()`: the stored flags; after conversion the origin's (`FromCurrentUserFields`) |
| Users.CachedCurrentUser.Username | cache/discord/src/entities/users.rs:58-60 | `username()`: the stored name; after conversion the origin's `name` (`FromCurrentUserFields`) |
| Users.CachedCurrentUser.PublicFlags | cache/discord/src/entities/users.rs:63-65 | `public_flags()`: the stored public flags; after conversion the origin's (`FromCurrentUserFields`) |
| Users.CachedCurrentUser.EntityId | cache/discord/src/entities/users.rs:71-73 | `Entity::id`: the stored id; after conversion the origin's `id` (`FromCurrentUserFields`) |
| Users.FromCurrentUserFields | cache/discord/src/entities/users.rs:43-87 | after conversion the accessors give the origin's avatar, flags and public flags unchanged, the username is the origin's `name`, and `id()` is the origin's id |
| Users.CachedDiscriminatorParses | cache/discord/src/entities/users.rs:80 | the cached discriminator is canonical decimal text that parses back to the origin discriminator |
| Users.FromCurrentUserKeepsFields | cache/discord/src/entities/users.rs:76-87 | two payloads with the same cached user agree on every field the cached user keeps |
| CacheBase.Cache.constructor | cache/base/src/lib.rs:42-44 | a cache is built around exactly one backend handle |
| CacheBase.Cache.Backend | cache/base/src/lib.rs:43-44 | `backend()` returns the cache's one handle and reads nothing mutable, so every call gives the same handle |
| MemberRepository.RedisStore.Set | discord-frontend/hartex-discord-entitycache-repositories/src/member.rs:43-45 | `SET` overwrites or inserts exactly one key |
| MemberRepository.CachedMemberRepository.Upsert | discord-frontend/hartex-discord-entitycache-repositories/src/member.rs:39-48 | the result is `UpsertOutcome`: a missing password, or a failure to open, connect or `SET`, is returned and leaves the store untouched; otherwise `Ok(())` is returned and the store is `StoreAfterUpsert` |
| MemberRepository.RedisUrl | discord-frontend/hartex-discord-entitycache-repositories/src/member.rs:41 | the connection URL: the fixed local endpoint with the password from the environment |
| MemberRepository.MemberKey | discord-frontend/hartex-discord-entitycache-repositories/src/member.rs:44 | the key `guild:<guildId>:member:<memberId>:id`; injective by `MemberKeyInjective` |
| MemberRepository.MemberValue | discord-frontend/hartex-discord-entitycache-repositories/src/member.rs:44 | the stored value, the member id's decimal text; it decodes back to the id by `StoredValueDecodes` |
| MemberRepository.UpsertOutcome | discord-frontend/hartex-discord-entitycache-repositories/src/member.rs:40-47 | the outcome of the steps in source order; when it is success is stated by `UpsertOutcomeSpec` |
| MemberRepository.StoreAfterUpsert | discord-frontend/hartex-discord-entitycache-repositories/src/member.rs:43-45 | the keyspace after a successful `SET`; what changes is stated by `UpsertChangesOnlyItsKey`, `UpsertIdempotent` and `UpsertsCommute` |
| MemberRepository.UpsertOutcomeSpec | discord-frontend/hartex-discord-entitycache-repositories/src/member.rs:40-47 | upsert succeeds exactly when the password is set and open, connect and `SET` all succeed; a missing password is reported as `Env(NotPresent)` |
| MemberRepository.MemberKeyInjective | discord-frontend/hartex-discord-entitycache-repositories/src/member.rs:44 | distinct (guild id, member id) pairs give distinct keys |
| MemberRepository.UpsertChangesOnlyItsKey | discord-frontend/hartex-discord-entitycache-repositories/src/member.rs:43-45 | a successful upsert sets `guild:<g>:member:<m>:id` to the member id and leaves every other key as it was |
| MemberRepository.UpsertIdempotent | discord-frontend/hartex-discord-entitycache-repositories/src/member.rs:44 | upserting the same member twice leaves the state of one upsert |
| MemberRepository.UpsertsCommute | discord-frontend/hartex-discord-entitycache-repositories/src/member.rs:44 | successful upserts of any two members give the same store in either order |
| MemberRepository.StoredValueDecodes | discord-frontend/hartex-discord-entitycache-repositories/src/member.rs:44 | the value stored under the member key decodes back to the member id |
| Repository.Get | cache/discord/src/repositories/channel/message/sticker.rs:44 | `Repository::get`: the snapshot stored under an id, or nothing; related to `Upsert` by `GetAfterUpsert` |
| Repository.Upsert | cache/discord/src/repositories/channel/message/sticker.rs:44 | `Repository::upsert`: store a snapshot under its own id; related to `Get` by `GetAfterUpsert`, idempotent by `UpsertIdempotent` |
| Repository.Stream | cache/discord/src/repositories/channel/message/sticker.rs:49-50 | a filtered stream of stored snapshots; its elements are characterised by `StreamSpec` |
| Repository.GetAfterUpsert | cache/discord/src/repositories/channel/message/sticker.rs:44 | `get` after `upsert(e)` returns e for e's id and the old answer for every other id |
| Repository.UpsertIdempotent | cache/discord/src/repositories/channel/message/sticker.rs:55 | applying the same upsert twice gives the state of one |
| Repository.StreamSpec | cache/discord/src/repositories/channel/message/sticker.rs:49-50 | a filtered stream yields exactly the stored snapshots that pass the filter |
| Repository.StreamAfterUpsert | cache/discord/src/repositories/channel/message/sticker.rs:49-50 | after an upsert the stream is the old matches minus the written id, plus the new snapshot if it passes |
| Stickers.GetPack | cache/discord/src/repositories/channel/message/sticker.rs:44 | `get` on the pack repository: the stored pack, `NotFound`, or the backend error (`GetPackAfterUpsert`) |
| Stickers.GetSticker | cache/discord/src/repositories/channel/message/sticker.rs:55 | `get` on the sticker repository: the stored sticker, `NotFound`, or the backend error (`GetStickerAfterUpsert`) |
| Stickers.UpsertPack | cache/discord/src/repositories/channel/message/sticker.rs:44 | `upsert` on the pack repository: outcome and new store (`GetPackAfterUpsert`) |
| Stickers.UpsertSticker | cache/discord/src/repositories/channel/message/sticker.rs:55 | `upsert` on the sticker repository: outcome and new store (`GetStickerAfterUpsert`, `UpsertStickerIdempotent`) |
| Stickers.PackStickers | cache/discord/src/repositories/channel/message/sticker.rs:49-50 | `stickers(pack_id)`: fails exactly when the backend is unreachable, and every sticker it yields names `pack_id` (exactness in `StickersExactly`) |
| Stickers.StickerPack | cache/discord/src/repositories/channel/message/sticker.rs:57-60 | `sticker_pack(sticker_id)`: a pack is returned only for a stored sticker that names one (agreement with `stickers` in `StickersHaveTheirPack` and `PackHasItsStickers`) |
| Stickers.StickersExactly | cache/discord/src/repositories/channel/message/sticker.rs:45-50 | `stickers(p)` yields exactly the stored stickers whose pack id is p |
| Stickers.StickersHaveTheirPack | cache/discord/src/repositories/channel/message/sticker.rs:45-60 | every sticker in `stickers(p)` has `sticker_pack` equal to `get(p)`: the pack when stored, `NotFound` when not |
| Stickers.PackHasItsStickers | cache/discord/src/repositories/channel/message/sticker.rs:45-60 | a sticker whose `sticker_pack` is pack q is among `stickers(q.id)` |
| Stickers.NoPackIsAbsence | cache/discord/src/repositories/channel/message/sticker.rs:56-60 | a sticker with no pack gives `NotFound`, never some other pack |
| Stickers.UnreachableBackendFails | cache/discord/src/repositories/channel/message/sticker.rs:49-60 | when the backend is unreachable both queries fail with the backend error |
| Stickers.GetStickerAfterUpsert | cache/discord/src/repositories/channel/message/sticker.rs:55 | on a reachable store, a sticker upsert succeeds, keeps every sticker under its own id, and `get` of its id returns it |
| Stickers.GetPackAfterUpsert | cache/discord/src/repositories/channel/message/sticker.rs:44 | on a reachable store, a pack upsert succeeds, keeps every pack under its own id, and `get` of its id returns it |
| Stickers.UpsertStickerIdempotent | cache/discord/src/repositories/channel/message/sticker.rs:55 | upserting the same sticker twice gives the outcome and state of one upsert |
| Stickers.StickersAfterUpsert | cache/discord/src/repositories/channel/message/sticker.rs:45-50 | after upserting a sticker, `stickers(p)` is the old answer without that sticker's previous snapshot, plus the new one if it names p |
| Limitable.NonZero | api-backend/hartex-backend-ratelimiter/src/limitable.rs:39-41 | `non_zero`: `NonZeroU32::new(i).unwrap_or(1)`; its values are stated by `NonZeroSpec` |
| Limitable.NewNonZeroU32 | api-backend/hartex-backend-ratelimiter/src/limitable.rs:40 | `NonZeroU32::new(i)` is present exactly when i is not 0, and then holds i |
| Limitable.NonZeroSpec | api-backend/hartex-backend-ratelimiter/src/limitable.rs:39-41 | `non_zero(i) == i` for i not 0, `non_zero(0) == 1`, the result is in 1..2^32-1, and `non_zero` is idempotent |

## Left out

- `CachedMemberRepository::get` is `todo!()` in the source, so no read path from Redis is modelled.
- `Cache` is not connected to the repositories: `CachedMemberRepository` holds its `RedisStore` and the sticker functions take a `StickerStore` directly, so the sharing of one backend handle by every repository of a cache is not modelled.
- Async futures, `Pin<Box<dyn Future>>`, `Arc` reference counting, connection pools, cancellation and concurrent upserts are not modelled. Each operation is one sequential step, and the shared `Arc<B>` is a plain shared reference.
- The environment, `Client::open`, the connection and the `SET` reply are inputs to `Upsert` (`env` and `Network`), not real I/O.
- MemberRepository.CachedMemberRepository.Upsert: a failed `SET` reply is modelled as "nothing written". The real server could have applied a command whose reply was lost.
- `VarError::NotUnicode` is not modelled, because environment values are modelled as strings. A missing variable is the only environment failure.
- `Limitable::evaluate_limit`, `Quota` and `Method` belong to the `governor` and `rocket` libraries and are not modelled.
- `ImageHash`, `UserFlags` and `OffsetDateTime` are opaque values. They are copied and never computed on.
- The origin `CurrentUser` has more fields than the model lists (accent colour, banner, premium type). The conversion reads none of them.
- The panics from `unwrap` in the row decoders are not replicated. They become `MalformedRow` results.
- The `Repository` trait file of the cache base crate and the sticker entity definitions are not part of this model. The get/upsert/stream shape is taken from how `sticker.rs` and `member.rs` use them. Sticker entities carry only an id, a name and the optional pack id; pack entities an id, a name and a description. `MemberEntity` carries only the guild id and the member id that `upsert` reads.
- A stream is modelled as the finite set of its elements. Lazy, single-pass delivery is not modelled, and neither is order, which the source does not specify.
- `sticker.rs` declares only the two repository traits, with no backend behind them. The store is an abstract in-memory view with a `reachable` switch that stands for backend failures.
