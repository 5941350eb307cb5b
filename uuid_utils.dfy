/**
 * Base64UuidGenerator.UuidUtils: a UUID's two 64-bit halves packed big-endian
 * into 16 bytes and written as 22 URL-safe Base64 characters, and the way back.
 * A Java long is a `bv64` bit pattern and a Java byte a `bv8`.
 */
module UuidUtils {
  import opened Values
  import opened Base64

  /** java.util.UUID as its two halves. */
  datatype Uuid = Uuid(mostSigBits: bv64, leastSigBits: bv64)

  /**
   * The byte long2bytes writes for position `i` (counting from the least
   * significant byte), `(byte) ((value >> 8 * i) & 0xFF)`, one position at a
   * time; ShiftIsByteOf shows it is that expression.
   */
  function ByteOf(v: bv64, i: nat): bv8
    requires i < 8
  {
    var w := if i == 0 then v else if i == 1 then v >> 8 else if i == 2 then v >> 16 else if i == 3 then v >> 24
             else if i == 4 then v >> 32 else if i == 5 then v >> 40 else if i == 6 then v >> 48 else v >> 56;
    (w & 0xFF) as bv8
  }

  lemma ShiftIsByteOf(v: bv64, i: nat)
    requires i < 8
    ensures ((v >> ((i as bv7) * 8)) & 0xFF) as bv8 == ByteOf(v, i)
  {
    if i == 0 { assert (i as bv7) * 8 == 0; }
    else if i == 1 { assert (i as bv7) * 8 == 8; }
    else if i == 2 { assert (i as bv7) * 8 == 16; }
    else if i == 3 { assert (i as bv7) * 8 == 24; }
    else if i == 4 { assert (i as bv7) * 8 == 32; }
    else if i == 5 { assert (i as bv7) * 8 == 40; }
    else if i == 6 { assert (i as bv7) * 8 == 48; }
    else { assert (i as bv7) * 8 == 56; }
  }

  /**
   * The term bytes2long ORs in for position `i`, `((long) b & 0xFF) << 8 * i`,
   * one position at a time; ShiftIsTerm shows it is that expression.
   */
  function Term(b: bv8, i: nat): bv64
    requires i < 8
  {
    var w := (b as bv64) & 0xFF;
    if i == 0 then w else if i == 1 then w << 8 else if i == 2 then w << 16 else if i == 3 then w << 24
    else if i == 4 then w << 32 else if i == 5 then w << 40 else if i == 6 then w << 48 else w << 56
  }

  lemma ShiftIsTerm(b: bv8, i: nat)
    requires i < 8
    ensures ((b as bv64) & 0xFF) << ((i as bv7) * 8) == Term(b, i)
  {
    if i == 0 { assert (i as bv7) * 8 == 0; }
    else if i == 1 { assert (i as bv7) * 8 == 8; }
    else if i == 2 { assert (i as bv7) * 8 == 16; }
    else if i == 3 { assert (i as bv7) * 8 == 24; }
    else if i == 4 { assert (i as bv7) * 8 == 32; }
    else if i == 5 { assert (i as bv7) * 8 == 40; }
    else if i == 6 { assert (i as bv7) * 8 == 48; }
    else { assert (i as bv7) * 8 == 56; }
  }

  /** The eight big-endian bytes of a long: the first is its most significant byte. */
  function LongBytes(v: bv64): (r: seq<bv8>)
    ensures |r| == 8
    ensures forall k :: 0 <= k < 8 ==> r[k] == ByteOf(v, 7 - k)
  {
    seq(8, k requires 0 <= k < 8 => ByteOf(v, 7 - k))
  }

  /** The long bytes2long has built after reading the first `n` big-endian bytes of `p`. */
  function Accumulated(p: seq<bv8>, n: nat): bv64
    requires n <= |p| && n <= 8
  {
    if n == 0 then 0 else Accumulated(p, n - 1) | Term(p[n - 1], 8 - n)
  }

  /** The long whose big-endian bytes are `p`. */
  function BytesLong(p: seq<bv8>): bv64
    requires |p| == 8
  {
    Accumulated(p, 8)
  }

  /** Reading one more byte ORs it in at the next lower position. */
  lemma AccumulatedStep(p: seq<bv8>, n: nat)
    requires n < |p| && n < 8
    ensures Accumulated(p, n + 1) == Accumulated(p, n) | Term(p[n], 7 - n)
  {
  }

  /** Only the bytes read so far matter. */
  lemma {:induction false} AccumulatedOfPrefix(p: seq<bv8>, q: seq<bv8>, n: nat)
    requires n <= |p| && n <= |q| && n <= 8 && p[..n] == q[..n]
    ensures Accumulated(p, n) == Accumulated(q, n)
  {
    if n > 0 {
      assert p[n - 1] == p[..n][n - 1] == q[..n][n - 1] == q[n - 1];
      assert p[..n - 1] == p[..n][..n - 1];
      assert q[..n - 1] == q[..n][..n - 1];
      AccumulatedOfPrefix(p, q, n - 1);
    }
  }

  /** OR-ing eight terms into zero one at a time is OR-ing them. */
  lemma OrChain(t0: bv64, t1: bv64, t2: bv64, t3: bv64, t4: bv64, t5: bv64, t6: bv64, t7: bv64)
    ensures ((((((((0 as bv64) | t0) | t1) | t2) | t3) | t4) | t5) | t6) | t7 == t0 | t1 | t2 | t3 | t4 | t5 | t6 | t7
  {
  }

  /** BytesLong written out as the OR of its eight shifted bytes. */
  lemma BytesLongUnrolled(p: seq<bv8>)
    requires |p| == 8
    ensures BytesLong(p) == (p[0] as bv64 << 56) | (p[1] as bv64 << 48) | (p[2] as bv64 << 40) | (p[3] as bv64 << 32)
                          | (p[4] as bv64 << 24) | (p[5] as bv64 << 16) | (p[6] as bv64 << 8) | (p[7] as bv64)
  {
    AccumulatedStep(p, 0); AccumulatedStep(p, 1); AccumulatedStep(p, 2); AccumulatedStep(p, 3);
    AccumulatedStep(p, 4); AccumulatedStep(p, 5); AccumulatedStep(p, 6); AccumulatedStep(p, 7);
    OrChain(Term(p[0], 7), Term(p[1], 6), Term(p[2], 5), Term(p[3], 4), Term(p[4], 3), Term(p[5], 2), Term(p[6], 1), Term(p[7], 0));
  }

  /** Reading back the bytes long2bytes writes gives the long. */
  lemma BytesLongOfLongBytes(v: bv64)
    ensures BytesLong(LongBytes(v)) == v
  {
    BytesLongUnrolled(LongBytes(v));
  }

  /** Writing out the long bytes2long reads gives the bytes. */
  lemma LongBytesOfBytesLong(p: seq<bv8>)
    requires |p| == 8
    ensures LongBytes(BytesLong(p)) == p
  {
    BytesLongUnrolled(p);
  }

  /**
   * long2bytes(value, bytes, offset): writes the eight big-endian bytes of
   * `value` from `offset` on. A write outside the array fails at that index,
   * after the writes before it have been made; nothing else changes.
   */
  method Long2Bytes(value: bv64, bytes: array<bv8>, offset: int) returns (r: Outcome)
    modifies bytes
    ensures 0 <= offset && offset + 8 <= bytes.Length ==>
              r == Pass && bytes[..] == old(bytes[..offset]) + LongBytes(value) + old(bytes[offset + 8..])
    ensures offset < 0 || offset > bytes.Length ==> r == Fail(IndexOutOfBounds(offset)) && bytes[..] == old(bytes[..])
    ensures 0 <= offset <= bytes.Length < offset + 8 ==>
              r == Fail(IndexOutOfBounds(bytes.Length))
              && bytes[..] == old(bytes[..offset]) + LongBytes(value)[..bytes.Length - offset]
  {
    var off := offset;
    var i := 7;
    ghost var before := bytes[..];
    ghost var expected := LongBytes(value);
    while i > -1
      invariant -1 <= i <= 7 && off == offset + 7 - i
      invariant i == 7 ==> bytes[..] == before
      invariant i < 7 ==> 0 <= offset && off <= bytes.Length
      invariant 0 <= offset && off <= bytes.Length ==> bytes[..] == Spliced(before, offset, expected[..7 - i])
    {
      if off < 0 || off >= bytes.Length {
        assert i < 7 ==> bytes[..] == before[..offset] + expected[..bytes.Length - offset] by {
          if i < 7 {
            assert before[bytes.Length..] == [];
          }
        }
        return Fail(IndexOutOfBounds(off));
      }
      SplicedNext(before, offset, expected, 7 - i, bytes[..]);
      // Java's arithmetic >> and the logical >> here agree once masked to the low byte
      bytes[off] := ByteOf(value, i);
      off := off + 1;
      i := i - 1;
    }
    assert expected[..8] == expected;
    return Pass;
  }

  /** `s` with `w` written over it from `at` on. */
  ghost function Spliced<T>(s: seq<T>, at: nat, w: seq<T>): seq<T>
    requires at + |w| <= |s|
  {
    s[..at] + w + s[at + |w|..]
  }

  /** Writing the next element of `e` at the end of the spliced part splices one more. */
  lemma SplicedNext<T>(s: seq<T>, at: nat, e: seq<T>, n: nat, cur: seq<T>)
    requires n < |e| && at + n < |s| && cur == Spliced(s, at, e[..n])
    ensures |cur| == |s| && cur[at + n := e[n]] == Spliced(s, at, e[..n + 1])
  {
    assert e[..n + 1] == e[..n] + [e[n]];
  }

  /**
   * One turn of bytes2long's loop, `value |= ((long) b & 0xFF) << 8 * i`: with
   * `b` the next byte of `p` after the `n` read, one more byte has been read.
   */
  method OrInByte(value: bv64, ghost p: seq<bv8>, ghost n: nat, b: bv8, i: int) returns (r: bv64)
    requires n < |p| && n < 8 && p[n] == b && i == 7 - n && value == Accumulated(p, n)
    ensures r == Accumulated(p, n + 1)
  {
    AccumulatedStep(p, n);
    r := value | Term(b, i);
  }

  /**
   * bytes2long(bytes, offset): the long whose big-endian bytes start at
   * `offset`, or the index of the first read outside the array.
   */
  method Bytes2Long(bytes: array<bv8>, offset: int) returns (r: Result<bv64>)
    ensures 0 <= offset && offset + 8 <= bytes.Length ==> r == Ok(BytesLong(bytes[offset..offset + 8]))
    ensures offset < 0 || offset > bytes.Length ==> r == Err(IndexOutOfBounds(offset))
    ensures 0 <= offset <= bytes.Length < offset + 8 ==> r == Err(IndexOutOfBounds(bytes.Length))
  {
    ghost var p: seq<bv8> := if 0 <= offset <= bytes.Length then bytes[offset..] else [];
    var value: bv64 := 0;
    var off := offset;
    var i := 7;
    while i > -1
      invariant -1 <= i <= 7 && off == offset + 7 - i
      invariant i < 7 ==> 0 <= offset && off <= bytes.Length
      invariant 0 <= offset && off <= bytes.Length ==> value == Accumulated(p, off - offset)
    {
      if off < 0 || off >= bytes.Length {
        return Err(IndexOutOfBounds(off));
      }
      value := OrInByte(value, p, off - offset, bytes[off], i);
      off := off + 1;
      i := i - 1;
    }
    AccumulatedOfPrefix(p, bytes[offset..offset + 8], 8);
    return Ok(value);
  }

  /** The 16 bytes of a UUID: its most significant half, then its least significant half. */
  function UuidBytes(u: Uuid): (r: seq<bv8>)
    ensures |r| == 16
    ensures r[..8] == LongBytes(u.mostSigBits) && r[8..] == LongBytes(u.leastSigBits)
  {
    LongBytes(u.mostSigBits) + LongBytes(u.leastSigBits)
  }

  /** compressedUUID: the URL-safe Base64 of the UUID's 16 bytes. */
  function Compressed(u: Uuid): (r: string)
    ensures |r| == 22
    ensures forall k :: 0 <= k < |r| ==> IsUrlSafe(r[k])
  {
    Encode(UuidBytes(u))
  }

  /** compressedUUID(uuid). */
  method CompressedUuid(u: Uuid) returns (s: string)
    ensures s == Compressed(u)
  {
    var byUuid := new bv8[16];
    var least := u.leastSigBits;
    var most := u.mostSigBits;
    var first := Long2Bytes(most, byUuid, 0);
    var second := Long2Bytes(least, byUuid, 8);
    assert byUuid[..] == UuidBytes(u);
    s := Encode(byUuid[..]);
  }

  /**
   * uncompress: a text whose length() is not 22 UTF-16 code units is refused;
   * otherwise it is decoded with "==" appended, and reading a half past the
   * end of the decoded bytes fails at the array's length.
   */
  function Uncompressed(s: string): (r: Result<Uuid>)
    ensures Utf16Length(s) != 22 ==> r == Err(InvalidUuid)
    ensures r.Err? ==> r == Err(InvalidUuid) || r.error.IndexOutOfBounds?
  {
    if Utf16Length(s) != 22 then Err(InvalidUuid)
    else
      var decoded := Decode(s + "==");
      if |decoded| < 16 then Err(IndexOutOfBounds(|decoded|))
      else Ok(Uuid(BytesLong(decoded[..8]), BytesLong(decoded[8..16])))
  }

  /** uncompress(compressedUuid). */
  method Uncompress(s: string) returns (r: Result<Uuid>)
    ensures r == Uncompressed(s)
  {
    if Utf16Length(s) != 22 {
      return Err(InvalidUuid);
    }
    var decoded := Decode(s + "==");
    var byUuid := new bv8[|decoded|](k requires 0 <= k < |decoded| => decoded[k]);
    assert byUuid[..] == decoded;
    var most := Bytes2Long(byUuid, 0);
    if most.Err? {
      return Err(most.error);
    }
    var least := Bytes2Long(byUuid, 8);
    if least.Err? {
      return Err(least.error);
    }
    return Ok(Uuid(most.value, least.value));
  }

  /** Uncompressing a compressed UUID gives the UUID back. */
  lemma UncompressCompressed(u: Uuid)
    ensures Uncompressed(Compressed(u)) == Ok(u)
  {
    var b := UuidBytes(u);
    Utf16LengthOfBmp(Compressed(u));
    DecodeEncode(b, "==");
    assert Decode(Compressed(u) + "==") == b;
    assert b[..8] == LongBytes(u.mostSigBits);
    assert b[8..16] == b[8..] == LongBytes(u.leastSigBits);
    BytesLongOfLongBytes(u.mostSigBits);
    BytesLongOfLongBytes(u.leastSigBits);
  }

  /**
   * A text of 22 code units uncompresses exactly when every character is in the
   * decoder's table (either Base64 alphabet; no '='): a skipped character
   * leaves too few sextets for sixteen bytes.
   */
  lemma {:induction false} UncompressAccepts(s: string)
    requires Utf16Length(s) == 22
    ensures Uncompressed(s).Ok? <==> forall k :: 0 <= k < |s| ==> SextetOf(s[k]).Some?
  {
    if forall k :: 0 <= k < |s| ==> SextetOf(s[k]).Some? {
      Utf16LengthOfBmp(s);
    }
    SextetsOfPadded(s);
    var n := |Sextets(s + "==")|;
    assert |Decode(s + "==")| == 3 * (n / 4) + (if n % 4 == 0 then 0 else n % 4 - 1);
    if n < 22 {
      assert n / 4 <= 5;
      assert n / 4 == 5 ==> n % 4 <= 1;
    }
  }

  /**
   * Eleven characters outside the Basic Multilingual Plane are 22 UTF-16 code
   * units long, so the length check passes; the decoder skips them all and the
   * first read of bytes2long is out of bounds at index 0.
   */
  lemma SupplementaryTextFailsOutOfBounds(s: string)
    requires s == seq(11, k => '\U{1F600}')
    ensures Uncompressed(s) == Err(IndexOutOfBounds(0))
  {
    Utf16LengthOfSupplementary(s);
    SextetsOfSkipped(s, "==");
  }
}
