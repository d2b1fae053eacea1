/**
 * Sticker packs and stickers, their repositories, and the relation between
 * them: a pack has many stickers (`stickers`), a sticker belongs to at most
 * one pack (`sticker_pack`). The relation is not stored twice; it is resolved
 * from the pack id each sticker carries.
 */
module Stickers {
  import opened Wrappers
  import opened Identifiers
  import opened CacheBase
  import Repository

  datatype StickerPackEntity = StickerPackEntity(id: Id<StickerPackMarker>, name: string, description: string)

  datatype StickerEntity = StickerEntity(id: Id<StickerMarker>, name: string, packId: Option<Id<StickerPackMarker>>)

  /** The backend's error type: no such entity, or the backend could not be reached. */
  datatype BackendError = NotFound | Unavailable

  /** What the backend holds for both kinds, and whether it answers. */
  datatype StickerStore = StickerStore(
    packs: map<Id<StickerPackMarker>, StickerPackEntity>,
    stickers: map<Id<StickerMarker>, StickerEntity>,
    reachable: bool)

  function PackIdOf(pack: StickerPackEntity): Id<StickerPackMarker> { pack.id }

  function StickerIdOf(sticker: StickerEntity): Id<StickerMarker> { sticker.id }

  ghost predicate Valid(store: StickerStore) {
    Repository.Keyed(store.packs, PackIdOf) && Repository.Keyed(store.stickers, StickerIdOf)
  }

  /** `Repository<StickerPackEntity, B>::get`. */
  function GetPack(store: StickerStore, id: Id<StickerPackMarker>): Result<StickerPackEntity, BackendError> {
    if !store.reachable then Failure(Unavailable)
    else match Repository.Get(store.packs, id)
      case None => Failure(NotFound)
      case Some(pack) => Success(pack)
  }

  /** `Repository<StickerEntity, B>::get`. */
  function GetSticker(store: StickerStore, id: Id<StickerMarker>): Result<StickerEntity, BackendError> {
    if !store.reachable then Failure(Unavailable)
    else match Repository.Get(store.stickers, id)
      case None => Failure(NotFound)
      case Some(sticker) => Success(sticker)
  }

  /** `Repository<StickerPackEntity, B>::upsert`: the outcome and the store afterwards. */
  function UpsertPack(store: StickerStore, pack: StickerPackEntity): (UpdateResult<BackendError>, StickerStore) {
    if !store.reachable then (Failed(Unavailable), store)
    else (Updated, store.(packs := Repository.Upsert(store.packs, PackIdOf, pack)))
  }

  /** `Repository<StickerEntity, B>::upsert`: the outcome and the store afterwards. */
  function UpsertSticker(store: StickerStore, sticker: StickerEntity): (UpdateResult<BackendError>, StickerStore) {
    if !store.reachable then (Failed(Unavailable), store)
    else (Updated, store.(stickers := Repository.Upsert(store.stickers, StickerIdOf, sticker)))
  }

  /** The filter of the one-to-many direction: stickers that name `packId`. */
  function InPack(packId: Id<StickerPackMarker>): StickerEntity -> bool {
    (sticker: StickerEntity) => sticker.packId == Some(packId)
  }

  /** `StickerPackRepository::stickers`: the one-to-many direction, a filtered stream of stickers. */
  function PackStickers(store: StickerStore, packId: Id<StickerPackMarker>): (r: Result<set<StickerEntity>, BackendError>)
    ensures r.Failure? <==> !store.reachable
    ensures r.Success? ==> forall sticker :: sticker in r.value ==> sticker.packId == Some(packId)
  {
    if !store.reachable then Failure(Unavailable)
    else Success(Repository.Stream(store.stickers, InPack(packId)))
  }

  /** `StickerRepository::sticker_pack`: the many-to-one direction, a lookup by the sticker's pack id. */
  function StickerPack(store: StickerStore, stickerId: Id<StickerMarker>): (r: Result<StickerPackEntity, BackendError>)
    ensures r.Success? ==> GetSticker(store, stickerId).Success? && GetSticker(store, stickerId).value.packId.Some?
  {
    var sticker :- GetSticker(store, stickerId);
    match sticker.packId
    case None => Failure(NotFound)
    case Some(packId) => GetPack(store, packId)
  }

  /** `stickers(p)` yields exactly the stored stickers that belong to pack `p`, and no others. */
  lemma StickersExactly(store: StickerStore, packId: Id<StickerPackMarker>, sticker: StickerEntity)
    requires Valid(store) && store.reachable
    ensures PackStickers(store, packId).Success?
    ensures sticker in PackStickers(store, packId).value <==>
              GetSticker(store, sticker.id) == Success(sticker) && sticker.packId == Some(packId)
  {
    Repository.StreamSpec(store.stickers, StickerIdOf, InPack(packId), sticker);
  }

  /**
   * One association seen from both ends: every sticker `stickers(p)` yields
   * has `sticker_pack` equal to what `get(p)` gives, the pack itself when it
   * is stored and `NotFound` when it is not.
   */
  lemma StickersHaveTheirPack(store: StickerStore, packId: Id<StickerPackMarker>, sticker: StickerEntity)
    requires Valid(store)
    requires PackStickers(store, packId).Success? && sticker in PackStickers(store, packId).value
    ensures StickerPack(store, sticker.id) == GetPack(store, packId)
  {
    StickersExactly(store, packId, sticker);
  }

  /** Conversely, a sticker whose `sticker_pack` is `pack` is among the stickers of `pack`. */
  lemma PackHasItsStickers(store: StickerStore, stickerId: Id<StickerMarker>, pack: StickerPackEntity)
    requires Valid(store)
    requires StickerPack(store, stickerId) == Success(pack)
    ensures PackStickers(store, pack.id).Success?
    ensures exists sticker :: sticker in PackStickers(store, pack.id).value && sticker.id == stickerId
  {
    var sticker := store.stickers[stickerId];
    assert sticker.id == stickerId;
    assert store.packs[sticker.packId.value] == pack;
    assert pack.id == sticker.packId.value;
    StickersExactly(store, pack.id, sticker);
  }

  /** A sticker with no pack reports absence, never some other pack. */
  lemma NoPackIsAbsence(store: StickerStore, stickerId: Id<StickerMarker>)
    requires GetSticker(store, stickerId).Success? && GetSticker(store, stickerId).value.packId.None?
    ensures StickerPack(store, stickerId) == Failure(NotFound)
  {
  }

  /** Backend failures reach the caller of either query unchanged. */
  lemma UnreachableBackendFails(store: StickerStore, packId: Id<StickerPackMarker>, stickerId: Id<StickerMarker>)
    requires !store.reachable
    ensures PackStickers(store, packId) == Failure(Unavailable)
    ensures StickerPack(store, stickerId) == Failure(Unavailable)
  {
  }

  /** After a successful upsert, `get` of that id returns the written sticker, and the store stays keyed. */
  lemma GetStickerAfterUpsert(store: StickerStore, sticker: StickerEntity)
    requires Valid(store) && store.reachable
    ensures UpsertSticker(store, sticker).0 == Updated
    ensures Valid(UpsertSticker(store, sticker).1)
    ensures GetSticker(UpsertSticker(store, sticker).1, sticker.id) == Success(sticker)
  {
    Repository.UpsertKeepsKeyed(store.stickers, StickerIdOf, sticker);
  }

  /** After a successful upsert, `get` of that id returns the written pack, and the store stays keyed. */
  lemma GetPackAfterUpsert(store: StickerStore, pack: StickerPackEntity)
    requires Valid(store) && store.reachable
    ensures UpsertPack(store, pack).0 == Updated
    ensures Valid(UpsertPack(store, pack).1)
    ensures GetPack(UpsertPack(store, pack).1, pack.id) == Success(pack)
  {
    Repository.UpsertKeepsKeyed(store.packs, PackIdOf, pack);
  }

  /** Upserting the same sticker twice gives the state of one upsert. */
  lemma UpsertStickerIdempotent(store: StickerStore, sticker: StickerEntity)
    ensures UpsertSticker(UpsertSticker(store, sticker).1, sticker) == UpsertSticker(store, sticker)
  {
    Repository.UpsertIdempotent(store.stickers, StickerIdOf, sticker);
  }

  /**
   * After upserting a sticker, `stickers(p)` is the old answer without the
   * sticker's previous snapshot, plus the new one if it names pack `p`.
   */
  lemma StickersAfterUpsert(store: StickerStore, sticker: StickerEntity, packId: Id<StickerPackMarker>)
    requires Valid(store) && store.reachable
    ensures PackStickers(UpsertSticker(store, sticker).1, packId) ==
              Success((set s | s in PackStickers(store, packId).value && s.id != sticker.id) +
                      (if sticker.packId == Some(packId) then {sticker} else {}))
  {
    Repository.StreamAfterUpsert(store.stickers, StickerIdOf, InPack(packId), sticker);
    var before := Repository.Stream(store.stickers, InPack(packId));
    var after := UpsertSticker(store, sticker).1;
    assert (set s | s in before && StickerIdOf(s) != StickerIdOf(sticker)) == (set s | s in before && s.id != sticker.id);
    assert Repository.Stream(after.stickers, InPack(packId)) ==
      (set s | s in before && s.id != sticker.id) + (if sticker.packId == Some(packId) then {sticker} else {});
  }
}
