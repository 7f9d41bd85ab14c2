/**
 * Byte streams. A readable stream is its bytes plus a cursor, as a
 * `std::io::Cursor<Vec<u8>>` is; a writable stream is the bytes written so
 * far, as a `Vec<u8>` used as `Write` is. The pure functions give the meaning
 * of one read: it consumes the front of the bytes that remain and leaves the
 * rest. The classes perform the reads and writes step by step and are proved
 * to follow those functions.
 */
module Stream {
  import opened Wrappers
  import opened Binary

  /** A value decoded from the front of a byte stream and the bytes left after it. */
  datatype Parsed<+T> = Parsed(value: T, rest: seq<byte>)

  /** `read_exact` of `n` bytes: fails when fewer than `n` bytes remain. */
  function TakeBytes(s: seq<byte>, n: nat): (r: Result<Parsed<seq<byte>>>)
    ensures r.Ok? <==> n <= |s|
    ensures r.Err? ==> r.error == UnexpectedEof
    ensures r.Ok? ==> |r.value.value| == n && |r.value.rest| == |s| - n
  {
    if n <= |s| then Ok(Parsed(s[..n], s[n..])) else Err(UnexpectedEof)
  }

  /** `read_i32::<LE>` */
  function TakeI32(s: seq<byte>): (r: Result<Parsed<i32>>)
    ensures r.Ok? <==> 4 <= |s|
    ensures r.Err? ==> r.error == UnexpectedEof
    ensures r.Ok? ==> |r.value.rest| == |s| - 4
  {
    if 4 <= |s| then Ok(Parsed(DecodeI32(s[..4]), s[4..])) else Err(UnexpectedEof)
  }

  /** `read_i64::<LE>` */
  function TakeI64(s: seq<byte>): (r: Result<Parsed<i64>>)
    ensures r.Ok? <==> 8 <= |s|
    ensures r.Err? ==> r.error == UnexpectedEof
    ensures r.Ok? ==> |r.value.rest| == |s| - 8
  {
    if 8 <= |s| then Ok(Parsed(DecodeI64(s[..8]), s[8..])) else Err(UnexpectedEof)
  }

  /** The bytes after a cursor at `pos`; none once the cursor is at or past the end. */
  function From(data: seq<byte>, pos: nat): (r: seq<byte>)
    ensures |r| == if pos <= |data| then |data| - pos else 0
  {
    if pos <= |data| then data[pos..] else []
  }

  /** A read that returned `r` and left the bytes `remaining` unread did what `spec` describes. */
  ghost predicate Follows<T>(r: Result<T>, remaining: seq<byte>, spec: Result<Parsed<T>>)
  {
    match spec
    case Ok(p) => r == Ok(p.value) && remaining == p.rest
    case Err(e) => r == Err(e)
  }

  /** What a successful read of `n` bytes returns is exactly the front of the stream. */
  lemma TakeBytesSplits(s: seq<byte>, n: nat)
    requires n <= |s|
    ensures TakeBytes(s, n).value.value + TakeBytes(s, n).value.rest == s
  {
  }

  /** Reading the bytes `w` back from a stream that starts with them. */
  lemma ReadWritten(w: seq<byte>, rest: seq<byte>)
    ensures TakeBytes(w + rest, |w|) == Ok(Parsed(w, rest))
  {
    assert (w + rest)[..|w|] == w;
    assert (w + rest)[|w|..] == rest;
  }

  /** An i32 written with `write_i32::<LE>` reads back unchanged. */
  lemma ReadWrittenI32(x: i32, rest: seq<byte>)
    ensures TakeI32(EncodeI32(x) + rest) == Ok(Parsed(x, rest))
  {
    ReadWritten(EncodeI32(x), rest);
    I32RoundTrip(x);
  }

  /** A u64 written with `write_i64::<LE>(x as i64)` reads back, `as u64`, unchanged. */
  lemma ReadWrittenU64(x: u64, rest: seq<byte>)
    ensures TakeI64(EncodeU64(x) + rest).Ok?
    ensures I64AsU64(TakeI64(EncodeU64(x) + rest).value.value) == x
    ensures TakeI64(EncodeU64(x) + rest).value.rest == rest
  {
    ReadWritten(EncodeU64(x), rest);
    U64RoundTrip(x);
  }

  /** `(a + b) + c == a + (b + c)`, stated for the proofs that re-associate written chunks. */
  lemma Assoc(a: seq<byte>, b: seq<byte>, c: seq<byte>)
    ensures (a + b) + c == a + (b + c)
  {
  }

  /** `n` records read one after another by `item`, appended to `acc`; the first failure ends the run. */
  function ReadMany<T>(item: seq<byte> -> Result<Parsed<T>>, s: seq<byte>, n: nat, acc: seq<T>): Result<Parsed<seq<T>>>
    decreases n
  {
    if n == 0 then Ok(Parsed(acc, s))
    else
      match item(s)
      case Err(e) => Err(e)
      case Ok(Parsed(x, rest)) => ReadMany(item, rest, n - 1, acc + [x])
  }

  /** Records written one after another by `write`. */
  function WriteMany<T>(write: T -> seq<byte>, xs: seq<T>): seq<byte>
  {
    if xs == [] then [] else write(xs[0]) + WriteMany(write, xs[1..])
  }

  /** `f` applied to every element of `xs`. */
  function MapEach<T>(f: T -> T, xs: seq<T>): seq<T>
  {
    seq(|xs|, i requires 0 <= i < |xs| => f(xs[i]))
  }

  /**
   * When `item` reads back what `write` wrote for every record of `xs` (as
   * `back` of it), reading `|xs|` records from what was written gives every
   * record back in order and stops exactly at the end of them.
   */
  lemma {:induction false} ReadManyWritten<T>(item: seq<byte> -> Result<Parsed<T>>, write: T -> seq<byte>, back: T -> T,
                                              xs: seq<T>, rest: seq<byte>, acc: seq<T>)
    requires forall i, r :: 0 <= i < |xs| ==> item(write(xs[i]) + r) == Ok(Parsed(back(xs[i]), r))
    ensures ReadMany(item, WriteMany(write, xs) + rest, |xs|, acc)
         == Ok(Parsed(acc + MapEach(back, xs), rest))
    decreases |xs|
  {
    var backs := MapEach(back, xs);
    if xs == [] {
      assert acc + backs == acc && WriteMany(write, xs) + rest == rest;
    } else {
      var tail := WriteMany(write, xs[1..]) + rest;
      assert WriteMany(write, xs) + rest == write(xs[0]) + tail;
      assert item(write(xs[0]) + tail) == Ok(Parsed(back(xs[0]), tail));
      forall i, r | 0 <= i < |xs[1..]| ensures item(write(xs[1..][i]) + r) == Ok(Parsed(back(xs[1..][i]), r)) {
        assert xs[1..][i] == xs[i + 1];
      }
      ReadManyWritten(item, write, back, xs[1..], rest, acc + [back(xs[0])]);
      assert acc + [back(xs[0])] + MapEach(back, xs[1..]) == acc + backs;
    }
  }

  class Reader {
    const data: seq<byte>
    var pos: nat

    constructor (data: seq<byte>)
      ensures this.data == data && pos == 0
    {
      this.data := data;
      pos := 0;
    }

    /** The bytes after the cursor. */
    function Rest(): (r: seq<byte>)
      reads this
      ensures r == From(data, pos)
    {
      From(data, pos)
    }

    method ReadExact(n: nat) returns (r: Result<seq<byte>>)
      modifies this
      ensures Follows(r, Rest(), TakeBytes(old(Rest()), n))
    {
      if pos + n <= |data| {
        r := Ok(data[pos..pos + n]);
        assert data[pos..][..n] == data[pos..pos + n];
        assert data[pos..][n..] == data[pos + n..];
        pos := pos + n;
      } else if n == 0 {
        // past the end, an empty read still succeeds and the cursor stays
        r := Ok([]);
      } else {
        r := Err(UnexpectedEof);
      }
    }

    method ReadI32() returns (r: Result<i32>)
      modifies this
      ensures Follows(r, Rest(), TakeI32(old(Rest())))
    {
      var bytes := ReadExact(4);
      if bytes.Err? {
        return Err(bytes.error);
      }
      r := Ok(DecodeI32(bytes.value));
    }

    method ReadI64() returns (r: Result<i64>)
      modifies this
      ensures Follows(r, Rest(), TakeI64(old(Rest())))
    {
      var bytes := ReadExact(8);
      if bytes.Err? {
        return Err(bytes.error);
      }
      r := Ok(DecodeI64(bytes.value));
    }

    /** `seek(SeekFrom::Start(to))`: a cursor may be placed anywhere, even past the end. */
    method Seek(to: nat)
      modifies this
      ensures pos == to
    {
      pos := to;
    }
  }

  class Writer {
    var out: seq<byte>

    constructor ()
      ensures out == []
    {
      out := [];
    }

    method WriteAll(bytes: seq<byte>)
      modifies this
      ensures out == old(out) + bytes
    {
      out := out + bytes;
    }

    method WriteI32(x: i32)
      modifies this
      ensures out == old(out) + EncodeI32(x)
    {
      WriteAll(EncodeI32(x));
    }

    /** `write_i64::<LE>(x as i64)` for a u64 (or usize) `x`. */
    method WriteU64AsI64(x: u64)
      modifies this
      ensures out == old(out) + EncodeU64(x)
    {
      WriteAll(EncodeU64(x));
    }
  }
}
