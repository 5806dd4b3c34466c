/**
 * The vCard side of the conversion, as an abstract record: the properties the
 * converter reads and writes, without the text syntax of the format.
 */
module VCard {
  import opened Wrappers

  /** The N property: family and given name. */
  datatype Name = Name(family: string, given: string)

  /** The street of an ADR property: one string, or the list a parsed card can hold. */
  datatype Street = Line(text: string) | Lines(parts: seq<string>)

  /** The ADR property with its six components. */
  datatype Address = Address(
    street: Street,
    extended: string,
    city: string,
    region: string,
    code: string,
    country: string)

  /** A TEL property: its (first) TYPE parameter, if it has one, and its value. */
  datatype Tel = Tel(kind: Option<string>, number: string)

  /**
   * One vCard. `adr`, `nickname`, `url` and `note` stand for the first property
   * of that name; `emails` and `tels` for all EMAIL and TEL properties in order.
   */
  datatype Card = Card(
    uid: string,
    fn: string,
    n: Name,
    emails: seq<string>,
    adr: Option<Address>,
    tels: seq<Tel>,
    nickname: Option<string>,
    url: Option<string>,
    note: Option<string>)
}
