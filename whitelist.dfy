/** Whitelisted guilds in the relational database and their `FromRow` decoder. */
module Whitelist {
  import opened Wrappers
  import opened Decimal
  import opened Identifiers
  import opened Rows

  datatype WhitelistedGuild = WhitelistedGuild(
    id: Id<GuildMarker>,
    name: string,
    ownerId: Id<UserMarker>,
    whitelistedSince: OffsetDateTime)

  const ID_COLUMN: string := "id"
  const NAME_COLUMN: string := "name"
  const OWNER_ID_COLUMN: string := "owner_id"
  const WHITELISTED_SINCE_COLUMN: string := "whitelisted_since"

  /**
   * `WhitelistedGuild::from_row`: the columns are read in the order `id`,
   * `name`, `owner_id`, `whitelisted_since`; the first failing read is the
   * result.
   */
  function WhitelistFromRow(row: Row): (r: Result<WhitelistedGuild, RowError>)
    ensures r.Success? ==>
              && ID_COLUMN in row && row[ID_COLUMN].Text?
              && DecodeId<GuildMarker>(row[ID_COLUMN].text) == Success(r.value.id)
              && NAME_COLUMN in row && row[NAME_COLUMN] == Text(r.value.name)
              && OWNER_ID_COLUMN in row && row[OWNER_ID_COLUMN].Text?
              && DecodeId<UserMarker>(row[OWNER_ID_COLUMN].text) == Success(r.value.ownerId)
              && WHITELISTED_SINCE_COLUMN in row && row[WHITELISTED_SINCE_COLUMN] == TimestampTz(r.value.whitelistedSince)
    ensures r.Failure? ==> r.error.column in {ID_COLUMN, NAME_COLUMN, OWNER_ID_COLUMN, WHITELISTED_SINCE_COLUMN}
  {
    var id :- TryGetId<GuildMarker>(row, ID_COLUMN);
    var name :- TryGetText(row, NAME_COLUMN);
    var ownerId :- TryGetId<UserMarker>(row, OWNER_ID_COLUMN);
    var whitelistedSince :- TryGetTimestamp(row, WHITELISTED_SINCE_COLUMN);
    Success(WhitelistedGuild(id, name, ownerId, whitelistedSince))
  }

  /** The row the database holds for a whitelisted guild: identifiers as decimal text. */
  function WhitelistToRow(guild: WhitelistedGuild): Row {
    map[
      ID_COLUMN := Text(EncodeId(guild.id)),
      NAME_COLUMN := Text(guild.name),
      OWNER_ID_COLUMN := Text(EncodeId(guild.ownerId)),
      WHITELISTED_SINCE_COLUMN := TimestampTz(guild.whitelistedSince)]
  }

  /**
   * Success exactly when all four columns read; the fields of the result
   * are then those four reads, as the decoder's own contract states.
   */
  lemma WhitelistFromRowSuccess(row: Row)
    ensures WhitelistFromRow(row).Success? <==>
              && TryGetId<GuildMarker>(row, ID_COLUMN).Success?
              && TryGetText(row, NAME_COLUMN).Success?
              && TryGetId<UserMarker>(row, OWNER_ID_COLUMN).Success?
              && TryGetTimestamp(row, WHITELISTED_SINCE_COLUMN).Success?
    ensures WhitelistFromRow(row).Success? ==>
              WhitelistFromRow(row).value == WhitelistedGuild(
                TryGetId<GuildMarker>(row, ID_COLUMN).value,
                TryGetText(row, NAME_COLUMN).value,
                TryGetId<UserMarker>(row, OWNER_ID_COLUMN).value,
                TryGetTimestamp(row, WHITELISTED_SINCE_COLUMN).value)
  {
  }

  /** The error of the first column, in reading order, that fails is returned, and no entity. */
  lemma WhitelistFromRowFailure(row: Row)
    ensures TryGetId<GuildMarker>(row, ID_COLUMN).Failure? ==>
              WhitelistFromRow(row) == Failure(TryGetId<GuildMarker>(row, ID_COLUMN).error)
    ensures TryGetId<GuildMarker>(row, ID_COLUMN).Success? && TryGetText(row, NAME_COLUMN).Failure? ==>
              WhitelistFromRow(row) == Failure(TryGetText(row, NAME_COLUMN).error)
    ensures TryGetId<GuildMarker>(row, ID_COLUMN).Success? && TryGetText(row, NAME_COLUMN).Success? &&
            TryGetId<UserMarker>(row, OWNER_ID_COLUMN).Failure? ==>
              WhitelistFromRow(row) == Failure(TryGetId<UserMarker>(row, OWNER_ID_COLUMN).error)
    ensures TryGetId<GuildMarker>(row, ID_COLUMN).Success? && TryGetText(row, NAME_COLUMN).Success? &&
            TryGetId<UserMarker>(row, OWNER_ID_COLUMN).Success? &&
            TryGetTimestamp(row, WHITELISTED_SINCE_COLUMN).Failure? ==>
              WhitelistFromRow(row) == Failure(TryGetTimestamp(row, WHITELISTED_SINCE_COLUMN).error)
  {
  }

  /** Zero, non-numeric or overflowing `owner_id` text fails the decode even when every other column is good. */
  lemma WhitelistBadOwnerIdRejected(row: Row)
    requires TryGetId<GuildMarker>(row, ID_COLUMN).Success? && TryGetText(row, NAME_COLUMN).Success?
    requires OWNER_ID_COLUMN in row && row[OWNER_ID_COLUMN].Text?
    requires DecodeId<UserMarker>(row[OWNER_ID_COLUMN].text).Failure?
    ensures WhitelistFromRow(row) ==
              Failure(MalformedRow(OWNER_ID_COLUMN, DecodeId<UserMarker>(row[OWNER_ID_COLUMN].text).error))
  {
  }

  /** Writing a whitelisted guild as a row and decoding that row gives the same guild back. */
  lemma WhitelistRowRoundTrip(guild: WhitelistedGuild)
    ensures WhitelistFromRow(WhitelistToRow(guild)) == Success(guild)
  {
    DecodeEncodeId(guild.id);
    DecodeEncodeId(guild.ownerId);
  }

  /** Rows that agree on the four columns decode alike: other columns are never read. */
  lemma WhitelistFromRowOnlyReadsItsColumns(a: Row, b: Row)
    requires forall c :: c in {ID_COLUMN, NAME_COLUMN, OWNER_ID_COLUMN, WHITELISTED_SINCE_COLUMN} ==>
               (c in a <==> c in b) && (c in a ==> a[c] == b[c])
    ensures WhitelistFromRow(a) == WhitelistFromRow(b)
  {
    assert ID_COLUMN in {ID_COLUMN, NAME_COLUMN, OWNER_ID_COLUMN, WHITELISTED_SINCE_COLUMN};
    assert NAME_COLUMN in {ID_COLUMN, NAME_COLUMN, OWNER_ID_COLUMN, WHITELISTED_SINCE_COLUMN};
    assert OWNER_ID_COLUMN in {ID_COLUMN, NAME_COLUMN, OWNER_ID_COLUMN, WHITELISTED_SINCE_COLUMN};
    assert WHITELISTED_SINCE_COLUMN in {ID_COLUMN, NAME_COLUMN, OWNER_ID_COLUMN, WHITELISTED_SINCE_COLUMN};
  }
}
