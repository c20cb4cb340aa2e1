/**
 * The generation parameters of `generate.py` (class `Name` and its enums)
 * and the lower- and upper-case spellings the builder derives from them.
 */
module NameConfig {

  /** `Name.NameOrder`; `Unrecognized` stands for any value outside the enum,
      which `setNameOrder` handles in its fallback branch. */
  datatype NameOrder = Eastern | ForenameOnly | SurnameOnly | Western | Unrecognized

  /** `Name.NameBank`: the cultural bank forenames are drawn from. */
  datatype NameBank = American | Dwarf | French | Gaelic | Germanic | Orc | Portuguese

  /** `Name.NameType`. */
  datatype NameType = Forename | Surname

  /** `Name.Origin`: selects adjectives, nouns and the "of ..." postfix. */
  datatype Origin = Aquatic | Desert | Mountain | Tundra | Urban | Forest | Air

  /** The attributes of a `Name` object that the grammar builder reads. */
  datatype Config = Config(
    genderMale: bool,
    genderFemale: bool,
    genderNeutral: bool,
    hasPosition: bool,
    order: NameOrder,
    origin: Origin,
    nameBank: NameBank)

  /** `origin.name.lower()`. */
  function OriginName(o: Origin): string
  {
    match o
    case Aquatic => "aquatic"
    case Desert => "desert"
    case Mountain => "mountain"
    case Tundra => "tundra"
    case Urban => "urban"
    case Forest => "forest"
    case Air => "air"
  }

  /** `namebank.name.lower()`. */
  function BankName(b: NameBank): string
  {
    match b
    case American => "american"
    case Dwarf => "dwarf"
    case French => "french"
    case Gaelic => "gaelic"
    case Germanic => "germanic"
    case Orc => "orc"
    case Portuguese => "portuguese"
  }

  /** `name_type.name.upper()`: the grammar key a name type defines. */
  function TypeKey(t: NameType): string
  {
    match t
    case Forename => "FORENAME"
    case Surname => "SURNAME"
  }

  /** `name_type.lower()` of the upper-case key. */
  function TypeLower(t: NameType): string
  {
    match t
    case Forename => "forename"
    case Surname => "surname"
  }

  predicate IsLowerAscii(s: string)
  {
    forall i :: 0 <= i < |s| ==> 'a' <= s[i] <= 'z'
  }

  /** Every spelling that ends up inside a vocabulary path is plain lower-case
      letters, which is what lets the resolver's pattern recognise the path. */
  lemma OriginNameLower(o: Origin)
    ensures IsLowerAscii(OriginName(o)) && |OriginName(o)| > 0
  {
    match o
    case Aquatic =>
    case Desert =>
    case Mountain =>
    case Tundra =>
    case Urban =>
    case Forest =>
    case Air =>
  }

  lemma BankNameLower(b: NameBank)
    ensures IsLowerAscii(BankName(b)) && |BankName(b)| > 0
  {
    match b
    case American =>
    case Dwarf =>
    case French =>
    case Gaelic =>
    case Germanic =>
    case Orc =>
    case Portuguese =>
  }
}
