/** A cached guild and its `FromRow` decoder for the relational backend. */
module Guilds {
  import opened Wrappers
  import opened Decimal
  import opened Identifiers
  import opened Rows

  datatype CachedGuild = CachedGuild(id: Id<GuildMarker>) {
    /** `Entity::id`. */
    function EntityId(): Id<GuildMarker> {
      id
    }
  }

  const ID_COLUMN: string := "id"

  /** `CachedGuild::from_row`: the text column `id` decoded to a non-zero identifier. */
  function GuildFromRow(row: Row): (r: Result<CachedGuild, RowError>)
    ensures r.Success? ==>
              ID_COLUMN in row && row[ID_COLUMN].Text? && DecodeId<GuildMarker>(row[ID_COLUMN].text) == Success(r.value.id)
    ensures r.Failure? ==> r.error.column == ID_COLUMN
  {
    var id :- TryGetId<GuildMarker>(row, ID_COLUMN);
    Success(CachedGuild(id))
  }

  /** The row the relational backend stores for a guild: its identifier as decimal text. */
  function GuildToRow(guild: CachedGuild): Row {
    map[ID_COLUMN := Text(EncodeId(guild.id))]
  }

  /**
   * Decoding succeeds exactly when `id` is present, is text, and that text
   * decodes to an identifier, which becomes the guild's id; otherwise the
   * failure of that column read is reported and no guild is built.
   */
  lemma GuildFromRowSpec(row: Row)
    ensures GuildFromRow(row).Success? <==>
              ID_COLUMN in row && row[ID_COLUMN].Text? && DecodeId<GuildMarker>(row[ID_COLUMN].text).Success?
    ensures GuildFromRow(row).Success? ==>
              DecodeId<GuildMarker>(row[ID_COLUMN].text) == Success(GuildFromRow(row).value.EntityId())
    ensures ID_COLUMN !in row ==> GuildFromRow(row) == Failure(ColumnNotFound(ID_COLUMN))
    ensures ID_COLUMN in row && !row[ID_COLUMN].Text? ==> GuildFromRow(row) == Failure(ColumnDecode(ID_COLUMN))
    ensures ID_COLUMN in row && row[ID_COLUMN].Text? && DecodeId<GuildMarker>(row[ID_COLUMN].text).Failure? ==>
              GuildFromRow(row) == Failure(MalformedRow(ID_COLUMN, DecodeId<GuildMarker>(row[ID_COLUMN].text).error))
  {
  }

  /** For every 0 < n < 2^64, a row whose `id` is the decimal text of n decodes to the guild with id n. */
  lemma GuildFromEncodedRow(row: Row, n: nat)
    requires 0 < n <= U64_MAX
    requires ID_COLUMN in row && row[ID_COLUMN] == Text(Encode(n))
    ensures GuildFromRow(row) == Success(CachedGuild(Id(n)))
  {
    TryGetIdEncoded<GuildMarker>(row, ID_COLUMN, n);
  }

  /** The text `"0"` is rejected, not turned into a guild. */
  lemma GuildZeroIdRejected(row: Row)
    requires ID_COLUMN in row && row[ID_COLUMN] == Text("0")
    ensures GuildFromRow(row) == Failure(MalformedRow(ID_COLUMN, Zero))
  {
    DecodeRejectsZero<GuildMarker>();
  }

  /** Only the `id` column matters: rows that agree on it decode alike. */
  lemma GuildFromRowOnlyReadsId(a: Row, b: Row)
    requires ID_COLUMN in a <==> ID_COLUMN in b
    requires ID_COLUMN in a ==> a[ID_COLUMN] == b[ID_COLUMN]
    ensures GuildFromRow(a) == GuildFromRow(b)
  {
  }

  /** Writing a guild as a row and decoding that row gives the same guild back. */
  lemma GuildRowRoundTrip(guild: CachedGuild)
    ensures GuildFromRow(GuildToRow(guild)) == Success(guild)
  {
    DecodeEncodeId(guild.id);
  }
}
