/**
 * The version record of a pack (src/asset_pack/godot_version.rs): four
 * little-endian i32 values written and read in the order version, major,
 * minor, revision. `GodotVersion::new` is the datatype's constructor and the
 * derived equality is Dafny's structural equality.
 */
module Version {
  import opened Wrappers
  import opened Binary
  import opened Stream
  import Utils
  import Strings

  datatype GodotVersion = GodotVersion(version: i32, major: i32, minor: i32, revision: i32)

  /** `GodotVersion::size_in_bytes()` */
  function SizeInBytes(): nat
  {
    Utils.I32 * 4
  }

  /** The bytes `to_write` emits. */
  function Encode(v: GodotVersion): (r: seq<byte>)
    ensures |r| == SizeInBytes()
  {
    EncodeI32(v.version) + EncodeI32(v.major) + EncodeI32(v.minor) + EncodeI32(v.revision)
  }

  /** What `from_read` reads: four i32 values from the front of the stream, failing on a short stream. */
  function Decode(s: seq<byte>): (r: Result<Parsed<GodotVersion>>)
    ensures r.Ok? <==> SizeInBytes() <= |s|
    ensures r.Err? ==> r.error == UnexpectedEof
    ensures r.Ok? ==> |r.value.rest| == |s| - SizeInBytes() && r.value.rest == s[16..]
    ensures r.Ok? ==> r.value.value == GodotVersion(DecodeI32(s[..4]), DecodeI32(s[4..8]), DecodeI32(s[8..12]), DecodeI32(s[12..16]))
  {
    match TakeI32(s)
    case Err(e) => Err(e)
    case Ok(Parsed(version, s1)) =>
      match TakeI32(s1)
      case Err(e) => Err(e)
      case Ok(Parsed(major, s2)) =>
        match TakeI32(s2)
        case Err(e) => Err(e)
        case Ok(Parsed(minor, s3)) =>
          match TakeI32(s3)
          case Err(e) => Err(e)
          case Ok(Parsed(revision, s4)) =>
            assert s1 == s[4..] && s2 == s[8..] && s3 == s[12..] && s4 == s[16..];
            assert s1[..4] == s[4..8] && s2[..4] == s[8..12] && s3[..4] == s[12..16];
            Ok(Parsed(GodotVersion(version, major, minor, revision), s4))
  }

  /** `from_read(to_write(v)) == v`, whatever follows the record in the stream. */
  lemma RoundTrip(v: GodotVersion, rest: seq<byte>)
    ensures Decode(Encode(v) + rest) == Ok(Parsed(v, rest))
  {
    var e1, e2, e3, e4 := EncodeI32(v.version), EncodeI32(v.major), EncodeI32(v.minor), EncodeI32(v.revision);
    assert Encode(v) + rest == e1 + (e2 + (e3 + (e4 + rest)));
    ReadWrittenI32(v.version, e2 + (e3 + (e4 + rest)));
    ReadWrittenI32(v.major, e3 + (e4 + rest));
    ReadWrittenI32(v.minor, e4 + rest);
    ReadWrittenI32(v.revision, rest);
  }

  /** Every 16 bytes are a version record: writing what was read gives the same bytes back. */
  lemma DecodeThenEncode(s: seq<byte>)
    requires SizeInBytes() <= |s|
    ensures Decode(s).Ok? && Encode(Decode(s).value.value) + Decode(s).value.rest == s
  {
    I32Canonical(s[..4]);
    I32Canonical(s[4..][..4]);
    I32Canonical(s[4..][4..][..4]);
    I32Canonical(s[4..][4..][4..][..4]);
    assert s == s[..4] + (s[4..][..4] + (s[4..][4..][..4] + (s[4..][4..][4..][..4] + s[4..][4..][4..][4..])));
  }

  method FromRead(r: Reader) returns (res: Result<GodotVersion>)
    modifies r
    ensures Follows(res, r.Rest(), Decode(old(r.Rest())))
  {
    var version := r.ReadI32();
    if version.Err? { return Err(version.error); }
    var major := r.ReadI32();
    if major.Err? { return Err(major.error); }
    var minor := r.ReadI32();
    if minor.Err? { return Err(minor.error); }
    var revision := r.ReadI32();
    if revision.Err? { return Err(revision.error); }
    res := Ok(GodotVersion(version.value, major.value, minor.value, revision.value));
  }

  method ToWrite(v: GodotVersion, w: Writer)
    modifies w
    ensures w.out == old(w.out) + Encode(v)
  {
    w.WriteI32(v.version);
    w.WriteI32(v.major);
    w.WriteI32(v.minor);
    w.WriteI32(v.revision);
  }

  // Decimal rendering of integers, as Rust's `{}` formats an i32.

  function DigitChar(d: nat): (c: char)
    requires d < 10
    ensures '0' <= c <= '9' && c as int - '0' as int == d
  {
    (d + '0' as int) as char
  }

  predicate IsDigits(s: string)
  {
    forall i :: 0 <= i < |s| ==> '0' <= s[i] <= '9'
  }

  /** The shortest decimal numeral of `n`. */
  function NatToString(n: nat): (s: string)
    ensures |s| >= 1 && IsDigits(s)
    decreases n
  {
    if n < 10 then [DigitChar(n)] else NatToString(n / 10) + [DigitChar(n % 10)]
  }

  function ParseNat(s: string): nat
    requires IsDigits(s)
  {
    if s == [] then 0 else ParseNat(s[..|s| - 1]) * 10 + (s[|s| - 1] as int - '0' as int)
  }

  lemma {:induction false} ParseNatToString(n: nat)
    ensures ParseNat(NatToString(n)) == n
    decreases n
  {
    if n >= 10 {
      var s := NatToString(n);
      assert s[..|s| - 1] == NatToString(n / 10);
      ParseNatToString(n / 10);
    }
  }

  /** `format!("{}", n)` */
  function IntToString(n: int): string
  {
    if n < 0 then "-" + NatToString(-n) else NatToString(n)
  }

  /** Reads back what `IntToString` prints: an optional minus sign, then digits. */
  function ParseInt(s: string): int
  {
    if |s| > 0 && s[0] == '-' && IsDigits(s[1..]) then 0 - ParseNat(s[1..])
    else if IsDigits(s) then ParseNat(s)
    else 0
  }

  lemma ParseIntToString(n: int)
    ensures ParseInt(IntToString(n)) == n
  {
    var s := IntToString(n);
    if n < 0 {
      assert s[1..] == NatToString(-n);
      ParseNatToString(-n);
    } else {
      ParseNatToString(n);
    }
  }

  /** Distinct integers are printed differently. */
  lemma IntToStringInjective(a: int, b: int)
    requires IntToString(a) == IntToString(b)
    ensures a == b
  {
    ParseIntToString(a);
    ParseIntToString(b);
  }

  lemma NoDotInInt(n: int)
    ensures '.' !in IntToString(n)
  {
  }

  /** `Display`: `version.major.minor.revision`. */
  function Display(v: GodotVersion): string
  {
    IntToString(v.version) + "." + (IntToString(v.major) + "." + (IntToString(v.minor) + "." + IntToString(v.revision)))
  }

  /** Two texts joined at a dot that the first does not contain come apart again at that dot. */
  lemma DotJoinInjective(x1: string, x2: string, y1: string, y2: string)
    requires '.' !in x1 && '.' !in y1
    requires x1 + "." + x2 == y1 + "." + y2
    ensures x1 == y1 && x2 == y2
  {
    Strings.SplitOnceJoined(x1, '.', x2);
    Strings.SplitOnceJoined(y1, '.', y2);
  }

  /** The rendered version names one record: splitting it at its dots gives back the four fields. */
  lemma DisplayInjective(a: GodotVersion, b: GodotVersion)
    requires Display(a) == Display(b)
    ensures a == b
  {
    var a1, a2, a3, a4 := IntToString(a.version), IntToString(a.major), IntToString(a.minor), IntToString(a.revision);
    var b1, b2, b3, b4 := IntToString(b.version), IntToString(b.major), IntToString(b.minor), IntToString(b.revision);
    NoDotInInt(a.version); NoDotInInt(a.major); NoDotInInt(a.minor);
    NoDotInInt(b.version); NoDotInInt(b.major); NoDotInInt(b.minor);
    DotJoinInjective(a1, a2 + "." + (a3 + "." + a4), b1, b2 + "." + (b3 + "." + b4));
    DotJoinInjective(a2, a3 + "." + a4, b2, b3 + "." + b4);
    DotJoinInjective(a3, a4, b3, b4);
    IntToStringInjective(a.version, b.version);
    IntToStringInjective(a.major, b.major);
    IntToStringInjective(a.minor, b.minor);
    IntToStringInjective(a.revision, b.revision);
  }

  /** The record in the pack built by the source's serialization test reads as version 1.3.2.4. */
  lemma DisplayExample()
    ensures Display(GodotVersion(1, 3, 2, 4)) == "1.3.2.4"
  {
  }
}
