/**
 * The JSON5 documents of a pack. The `json5` crate and serde's derived
 * (de)serialisers are outside the model: a document type is paired with its
 * two conversions, and the properties of a pack's round trip hold for every
 * pair of conversions that undo each other.
 */
module Json {
  import opened Wrappers

  /** `json5::to_string` (which may refuse a value) and `json5::from_str` (which may refuse a text) for one type. */
  datatype JsonCodec<!T> = JsonCodec(toJson: T -> Option<string>, fromJson: string -> Option<T>)

  /** Every text the serialiser produces is parsed back to the value it came from. */
  ghost predicate Lawful<T(!new)>(c: JsonCodec<T>)
  {
    forall x :: c.toJson(x).Some? ==> c.fromJson(c.toJson(x).value) == Some(x)
  }

  /** `ColorOverrides`; the three `f32` fields are kept as their IEEE 754 bit patterns. */
  datatype ColorOverrides = ColorOverrides(enabled: bool, minRedness: bv32, minSaturation: bv32, redTolerance: bv32)

  /** `PackMeta`, the document stored as `<id>.json` and again as `<id>/pack.json`. */
  datatype PackMeta = PackMeta(name: string, id: string, version: string, author: string, customColorOverrides: Option<ColorOverrides>)
}
