/**
 * The Base64 codec the compressed UUIDs go through (commons-codec):
 * encodeBase64URLSafeString writes the URL-safe alphabet of section 5 of
 * RFC 4648 without padding, and decodeBase64 reads either alphabet, skips
 * characters outside it and stops at the first pad character '='.
 */
module Base64 {
  import opened Values

  /** The character of a sextet in the URL-safe alphabet. */
  function UrlSafeChar(v: bv8): char
    requires v < 64
  {
    var n := v as int;
    if n < 26 then ('A' as int + n) as char
    else if n < 52 then ('a' as int + n - 26) as char
    else if n < 62 then ('0' as int + n - 52) as char
    else if n == 62 then '-'
    else '_'
  }

  /** A character of the URL-safe alphabet: A-Z, a-z, 0-9, '-' and '_'. */
  predicate IsUrlSafe(c: char) {
    ('A' <= c <= 'Z') || ('a' <= c <= 'z') || ('0' <= c <= '9') || c == '-' || c == '_'
  }

  /**
   * The decoder's table: the sextet a character stands for in either alphabet
   * ('+' and '-' are 62, '/' and '_' are 63), or None for a character it skips.
   */
  function SextetOf(c: char): (r: Option<bv8>)
    ensures r.Some? ==> r.value < 64 && c as int < 128
    ensures IsUrlSafe(c) ==> r.Some?
    ensures c == '=' ==> r.None?
  {
    if 'A' <= c <= 'Z' then Some((c as int - 'A' as int) as bv8)
    else if 'a' <= c <= 'z' then Some((c as int - 'a' as int + 26) as bv8)
    else if '0' <= c <= '9' then Some((c as int - '0' as int + 52) as bv8)
    else if c == '+' || c == '-' then Some(62)
    else if c == '/' || c == '_' then Some(63)
    else None
  }

  /** Every sextet is written as a URL-safe character that reads back as the same sextet. */
  lemma UrlSafeCharDecodes(v: bv8)
    requires v < 64
    ensures IsUrlSafe(UrlSafeChar(v)) && SextetOf(UrlSafeChar(v)) == Some(v)
  {
    var n := v as int;
    if n < 26 {
      UpperDecodes(v);
    } else if n < 52 {
      LowerDecodes(v);
    } else if n < 62 {
      DigitDecodes(v);
    }
  }

  lemma UpperDecodes(v: bv8)
    requires v as int < 26
    ensures SextetOf(UrlSafeChar(v)) == Some(v)
  {
    var n := v as int;
    var c := ('A' as int + n) as char;
    assert c as int - 'A' as int == n;
    assert (n as bv8) == v;
  }

  lemma LowerDecodes(v: bv8)
    requires 26 <= v as int < 52
    ensures SextetOf(UrlSafeChar(v)) == Some(v)
  {
    var n := v as int;
    var c := ('a' as int + n - 26) as char;
    assert c as int - 'a' as int + 26 == n;
    assert (n as bv8) == v;
  }

  lemma DigitDecodes(v: bv8)
    requires 52 <= v as int < 62
    ensures SextetOf(UrlSafeChar(v)) == Some(v)
  {
    var n := v as int;
    var c := ('0' as int + n - 52) as char;
    assert c as int - '0' as int + 52 == n;
    assert (n as bv8) == v;
  }

  // The four sextets of three bytes, and the three bytes of four sextets.
  function Sextet0(b0: bv8): bv8 { b0 >> 2 }
  function Sextet1(b0: bv8, b1: bv8): bv8 { ((b0 & 0x03) << 4) | (b1 >> 4) }
  function Sextet2(b1: bv8, b2: bv8): bv8 { ((b1 & 0x0F) << 2) | (b2 >> 6) }
  function Sextet3(b2: bv8): bv8 { b2 & 0x3F }
  function Byte0(s0: bv8, s1: bv8): bv8 { (s0 << 2) | ((s1 >> 4) & 0x03) }
  function Byte1(s1: bv8, s2: bv8): bv8 { (s1 << 4) | ((s2 >> 2) & 0x0F) }
  function Byte2(s2: bv8, s3: bv8): bv8 { (s2 << 6) | (s3 & 0x3F) }

  /** Splitting three bytes into sextets and joining them again gives the bytes back. */
  lemma GroupRoundTrip(b0: bv8, b1: bv8, b2: bv8)
    ensures Sextet0(b0) < 64 && Sextet1(b0, b1) < 64 && Sextet2(b1, b2) < 64 && Sextet3(b2) < 64
    ensures Byte0(Sextet0(b0), Sextet1(b0, b1)) == b0
    ensures Byte1(Sextet1(b0, b1), Sextet2(b1, b2)) == b1
    ensures Byte2(Sextet2(b1, b2), Sextet3(b2)) == b2
  {
  }

  /** The sextets of the bytes, three bytes to four sextets, a short last group unpadded. */
  function ToSextets(b: seq<bv8>): (r: seq<bv8>)
    ensures |r| == (4 * |b| + 2) / 3
    ensures forall k :: 0 <= k < |r| ==> r[k] < 64
  {
    if |b| == 0 then []
    else if |b| == 1 then [Sextet0(b[0]), Sextet1(b[0], 0)]
    else if |b| == 2 then [Sextet0(b[0]), Sextet1(b[0], b[1]), Sextet2(b[1], 0)]
    else [Sextet0(b[0]), Sextet1(b[0], b[1]), Sextet2(b[1], b[2]), Sextet3(b[2])] + ToSextets(b[3..])
  }

  /** The URL-safe characters of a run of sextets. */
  function Chars(s: seq<bv8>): (r: string)
    requires forall k :: 0 <= k < |s| ==> s[k] < 64
    ensures |r| == |s|
    ensures forall k :: 0 <= k < |r| ==> IsUrlSafe(r[k])
  {
    if s == [] then []
    else
      UrlSafeCharDecodes(s[0]);
      [UrlSafeChar(s[0])] + Chars(s[1..])
  }

  /** encodeBase64URLSafeString: the URL-safe characters of the sextets, without padding. */
  function Encode(b: seq<bv8>): (r: string)
    ensures |r| == (4 * |b| + 2) / 3
    ensures forall k :: 0 <= k < |r| ==> IsUrlSafe(r[k])
  {
    Chars(ToSextets(b))
  }

  /** The sextets the decoder reads: those of the characters before the first '=', others skipped. */
  function Sextets(s: string): (r: seq<bv8>)
    ensures |r| <= |s|
    ensures forall k :: 0 <= k < |r| ==> r[k] < 64
  {
    if s == [] || s[0] == '=' then []
    else
      match SextetOf(s[0])
      case None => Sextets(s[1..])
      case Some(v) => [v] + Sextets(s[1..])
  }

  /**
   * The bytes of a run of sextets: four sextets to three bytes; a last group of
   * two or three sextets gives one or two bytes, and a single sextet is dropped.
   */
  function FromSextets(s: seq<bv8>): (r: seq<bv8>)
    ensures |r| == 3 * (|s| / 4) + (if |s| % 4 == 0 then 0 else |s| % 4 - 1)
  {
    if |s| >= 4 then [Byte0(s[0], s[1]), Byte1(s[1], s[2]), Byte2(s[2], s[3])] + FromSextets(s[4..])
    else if |s| == 3 then [Byte0(s[0], s[1]), Byte1(s[1], s[2])]
    else if |s| == 2 then [Byte0(s[0], s[1])]
    else []
  }

  /** decodeBase64: at most three bytes for every four characters. */
  function Decode(s: string): (r: seq<bv8>)
    ensures 4 * |r| <= 3 * |s|
  {
    var n := |Sextets(s)|;
    assert 4 * (3 * (n / 4)) + 4 * (if n % 4 == 0 then 0 else n % 4 - 1) <= 3 * n;
    FromSextets(Sextets(s))
  }

  /** The encoded text, padded or not, reads back as the sextets it was written from. */
  lemma {:induction false} SextetsOfEncoded(s: seq<bv8>, pad: string)
    requires forall k :: 0 <= k < |s| ==> s[k] < 64
    requires pad == [] || pad[0] == '='
    ensures Sextets(Chars(s) + pad) == s
  {
    if s == [] {
      assert Chars(s) + pad == pad;
    } else {
      SextetsOfEncoded(s[1..], pad);
      SextetsOfEncodedStep(s, pad);
    }
  }

  /** One character of the encoded text: its sextet, then those of the text after it. */
  lemma SextetsOfEncodedStep(s: seq<bv8>, pad: string)
    requires |s| > 0 && forall k :: 0 <= k < |s| ==> s[k] < 64
    requires Sextets(Chars(s[1..]) + pad) == s[1..]
    ensures Sextets(Chars(s) + pad) == s
  {
    var c := UrlSafeChar(s[0]);
    UrlSafeCharDecodes(s[0]);
    assert Chars(s) == [c] + Chars(s[1..]);
    HeadAndTail(c, Chars(s[1..]), pad);
    ConsTail(s);
  }

  lemma HeadAndTail<T>(x: T, a: seq<T>, b: seq<T>)
    ensures ([x] + a + b)[0] == x && ([x] + a + b)[1..] == a + b
  {
  }

  lemma ConsTail<T>(s: seq<T>)
    requires |s| > 0
    ensures [s[0]] + s[1..] == s
  {
  }

  lemma TakeDrop<T>(s: seq<T>, n: nat)
    requires n <= |s|
    ensures s[..n] + s[n..] == s
  {
  }

  /** A text of characters the decoder skips reads as no sextets at all. */
  lemma {:induction false} SextetsOfSkipped(s: string, pad: string)
    requires forall k :: 0 <= k < |s| ==> SextetOf(s[k]).None?
    requires pad == [] || pad[0] == '='
    ensures Sextets(s + pad) == []
  {
    if s == [] {
      assert s + pad == pad;
    } else {
      SextetsOfSkipped(s[1..], pad);
      assert (s + pad)[1..] == s[1..] + pad;
    }
  }

  /** Joining the sextets of some bytes gives the bytes back. */
  lemma {:induction false} FromSextetsOfBytes(b: seq<bv8>)
    ensures FromSextets(ToSextets(b)) == b
  {
    if |b| < 3 {
      FromSextetsOfShort(b);
    } else {
      FromSextetsOfGroup(b);
      FromSextetsOfBytes(b[3..]);
      TakeDrop(b, 3);
    }
  }

  /** One or two bytes come back from their two or three sextets. */
  lemma FromSextetsOfShort(b: seq<bv8>)
    requires |b| < 3
    ensures FromSextets(ToSextets(b)) == b
  {
    if |b| == 1 {
      GroupRoundTrip(b[0], 0, 0);
    } else if |b| == 2 {
      GroupRoundTrip(b[0], b[1], 0);
    }
  }

  /** The first three bytes come back from their four sextets, ahead of the rest. */
  lemma FromSextetsOfGroup(b: seq<bv8>)
    requires |b| >= 3
    ensures FromSextets(ToSextets(b)) == b[..3] + FromSextets(ToSextets(b[3..]))
  {
    var head := [Sextet0(b[0]), Sextet1(b[0], b[1]), Sextet2(b[1], b[2]), Sextet3(b[2])];
    var rest := ToSextets(b[3..]);
    var s := ToSextets(b);
    assert s == head + rest;
    assert s[4..] == rest;
    assert FromSextets(s) == [Byte0(s[0], s[1]), Byte1(s[1], s[2]), Byte2(s[2], s[3])] + FromSextets(rest);
    assert s[0] == Sextet0(b[0]) && s[1] == Sextet1(b[0], b[1]) && s[2] == Sextet2(b[1], b[2]) && s[3] == Sextet3(b[2]);
    GroupRoundTrip(b[0], b[1], b[2]);
    FirstThree(b);
  }

  lemma FirstThree<T>(b: seq<T>)
    requires |b| >= 3
    ensures b[..3] == [b[0], b[1], b[2]]
  {
  }

  /** Decoding the encoding, with or without "==" appended, gives the bytes back. */
  lemma DecodeEncode(b: seq<bv8>, pad: string)
    requires pad == "" || pad == "=="
    ensures Decode(Encode(b) + pad) == b
  {
    SextetsOfEncoded(ToSextets(b), pad);
    FromSextetsOfBytes(b);
  }

  /**
   * Of a text followed by "==", the decoder reads at most one sextet per
   * character, and one for every character exactly when each is in its table.
   */
  lemma {:induction false} SextetsOfPadded(s: string)
    ensures |Sextets(s + "==")| <= |s|
    ensures |Sextets(s + "==")| == |s| <==> forall k :: 0 <= k < |s| ==> SextetOf(s[k]).Some?
  {
    if s == [] {
      assert s + "==" == "==";
    } else {
      assert (s + "==")[1..] == s[1..] + "==";
      SextetsOfPadded(s[1..]);
      if s[0] != '=' && SextetOf(s[0]).Some? {
        assert (forall k :: 0 <= k < |s| ==> SextetOf(s[k]).Some?) <==>
               (forall k :: 0 <= k < |s[1..]| ==> SextetOf(s[1..][k]).Some?) by {
          if forall k :: 0 <= k < |s[1..]| ==> SextetOf(s[1..][k]).Some? {
            forall k | 0 <= k < |s| ensures SextetOf(s[k]).Some? {
              if k > 0 {
                assert s[k] == s[1..][k - 1];
              }
            }
          }
        }
      }
    }
  }
}
