/** Layout constants of the pack format and the length-prefixed string reader (src/asset_pack/utils.rs). */
module Utils {
  import opened Wrappers
  import opened Binary
  import Utf8
  import opened Stream

  /** "GDPC", the magic number Godot writes at the start of a PCK archive. */
  const ASSET_PACK_MAGIC_FILE_HEADER: seq<byte> := [0x47, 0x44, 0x50, 0x43]
  const I32: nat := 4
  const I64: nat := 8
  const GODOT_METADATA_RESERVED_SPACE: nat := 16 * I32
  const MD5_BYTES: nat := 16

  /**
   * `read_string(data, length)`: exactly `length` bytes from the front of the
   * stream, which must then be well-formed UTF-8.
   */
  function TakeString(s: seq<byte>, length: nat): (r: Result<Parsed<string>>)
    ensures r.Ok? <==> length <= |s| && Utf8.Decode(s[..length]).Some?
    ensures r.Err? ==> r.error == (if length <= |s| then InvalidUtf8 else UnexpectedEof)
    ensures r.Ok? ==> |Utf8.Encode(r.value.value)| == length && |r.value.rest| == |s| - length
  {
    match TakeBytes(s, length)
    case Err(e) => Err(e)
    case Ok(Parsed(bytes, rest)) =>
      match Utf8.Decode(bytes)
      case None => Err(InvalidUtf8)
      case Some(text) =>
        Utf8.EncodeDecode(bytes);
        Ok(Parsed(text, rest))
  }

  /** Any string, written as its UTF-8 bytes, is read back by `read_string` with its byte length. */
  lemma ReadStringWritten(text: string, rest: seq<byte>)
    ensures TakeString(Utf8.Encode(text) + rest, |Utf8.Encode(text)|) == Ok(Parsed(text, rest))
  {
    ReadWritten(Utf8.Encode(text), rest);
    Utf8.DecodeEncode(text);
  }

  method ReadString(r: Reader, length: nat) returns (res: Result<string>)
    modifies r
    ensures Follows(res, r.Rest(), TakeString(old(r.Rest()), length))
  {
    var bytes := r.ReadExact(length);
    if bytes.Err? {
      return Err(bytes.error);
    }
    var s := Utf8.Decode(bytes.value);
    if s.None? {
      return Err(InvalidUtf8);
    }
    res := Ok(s.value);
  }
}
