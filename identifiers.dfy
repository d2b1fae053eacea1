/**
 * Typed identifiers: a non-zero 64-bit integer tagged by the kind of entity it
 * names (Twilight's `Id<Marker>`), and the checked decoding of an identifier
 * from its decimal text that every relational read path shares.
 */
module Identifiers {
  import opened Wrappers
  import opened Decimal

  type NonZeroU64 = n: int | 0 < n <= U64_MAX witness 1

  /** `Id<Marker>`: identifiers of different entity kinds have different types. */
  datatype Id<Marker> = Id(get: NonZeroU64)

  datatype GuildMarker = GuildMarker
  datatype UserMarker = UserMarker
  datatype StickerMarker = StickerMarker
  datatype StickerPackMarker = StickerPackMarker

  /** Why a text column did not hold an identifier. */
  datatype IdError = Parse(kind: IntErrorKind) | Zero

  /** `Id::new_checked`: no identifier for the value 0. */
  function NewChecked<M>(n: U64): (r: Option<Id<M>>)
    ensures r.Some? <==> n != 0
    ensures r.Some? ==> r.value.get == n
  {
    if n == 0 then None else Some(Id(n))
  }

  /**
   * `Id::new_checked(text.parse::<u64>()?)`, with both failures made explicit
   * instead of unwrapped.
   */
  function DecodeId<M>(text: string): (r: Result<Id<M>, IdError>)
    ensures r == Failure(Parse(Empty)) <==> text == []
    ensures r.Success? ==> |Body(text)| > 0 && AllDigits(Body(text)) && r.value.get == Value(Body(text))
    ensures r == Failure(Zero) ==> |Body(text)| > 0 && AllDigits(Body(text)) && Value(Body(text)) == 0
  {
    match ParseU64(text)
    case Failure(kind) => Failure(Parse(kind))
    case Success(n) =>
      match NewChecked<M>(n)
      case None => Failure(Zero)
      case Some(id) => Success(id)
  }

  /** The `Display` form of an identifier: the decimal text of its value. */
  function EncodeId<M>(id: Id<M>): (s: string)
    ensures Canonical(s) && ':' !in s
  {
    EncodeHasNoColon(id.get);
    Encode(id.get)
  }

  /** Round trip: the decimal text of an identifier decodes to that identifier. */
  lemma DecodeEncodeId<M>(id: Id<M>)
    ensures DecodeId<M>(EncodeId(id)) == Success(id)
  {
    ParseEncode(id.get);
  }

  /** Every non-zero 64-bit integer, written in decimal, decodes to the identifier with exactly that value. */
  lemma DecodeEncode<M>(n: nat)
    requires 0 < n <= U64_MAX
    ensures DecodeId<M>(Encode(n)) == Success(Id(n))
  {
    DecodeEncodeId<M>(Id(n));
  }

  /**
   * Acceptance: decoding succeeds exactly when the text, after an optional
   * `+`, is a non-empty digit string whose value lies in 1 .. 2^64 - 1; the
   * identifier then carries that value. Empty, zero, overflowing and
   * non-digit text are rejected with their own reasons.
   */
  lemma DecodeIdSpec<M>(text: string)
    ensures DecodeId<M>(text).Success? <==>
              |Body(text)| > 0 && AllDigits(Body(text)) && 0 < Value(Body(text)) <= U64_MAX
    ensures DecodeId<M>(text).Success? ==> DecodeId<M>(text).value.get == Value(Body(text))
    ensures DecodeId<M>(text) == Failure(Parse(Empty)) <==> text == []
    ensures |Body(text)| > 0 && AllDigits(Body(text)) && Value(Body(text)) == 0 ==>
              DecodeId<M>(text) == Failure(Zero)
    ensures |Body(text)| > 0 && AllDigits(Body(text)) && Value(Body(text)) > U64_MAX ==>
              DecodeId<M>(text) == Failure(Parse(PosOverflow))
    ensures !AllDigits(Body(text)) ==> DecodeId<M>(text).Failure? && DecodeId<M>(text).error != Zero
  {
    ParseU64Spec(text);
  }

  /** The text `"0"` never yields an identifier. */
  lemma DecodeRejectsZero<M>()
    ensures DecodeId<M>("0") == Failure(Zero)
  {
    DecodeIdSpec<M>("0");
    assert Body("0") == "0";
    assert Value("0") == 0 by { assert "0"[..0] == []; }
  }

  /**
   * Decoding is injective up to sign and leading zeros: text that decodes to
   * `id` is `EncodeId(id)` once those are stripped.
   */
  lemma DecodeIdCanonical<M>(text: string, id: Id<M>)
    requires DecodeId<M>(text) == Success(id)
    ensures EncodeId(id) == StripLeadingZeros(Body(text))
  {
    ParseCanonical(text, id.get);
  }

  /** Distinct identifiers of one kind have distinct text. */
  lemma EncodeIdInjective<M>(a: Id<M>, b: Id<M>)
    requires EncodeId(a) == EncodeId(b)
    ensures a == b
  {
    DecodeEncodeId(a);
    DecodeEncodeId(b);
  }
}
