/** Bytes, 32-bit length fields and C strings: the representation shared by the
    wire codec, the transports and the instance guard. */
module Bytes {

  /** One `char` of a byte buffer, read as unsigned. */
  type byte = b: int | 0 <= b < 256

  const TWO_32: int := 0x1_0000_0000

  /** A `uint32_t` / `DWORD` value. */
  type u32 = n: int | 0 <= n < TWO_32

  /** A pointer that may be null. */
  datatype Option<+T> = None | Some(value: T)

  /** The four bytes of a length field. The source copies the field with a
      native-endian `memcpy`; this model fixes little-endian order. */
  function U32LE(n: u32): (r: seq<byte>)
    ensures |r| == 4
  {
    [n % 256, n / 256 % 256, n / 256 / 256 % 256, n / 256 / 256 / 256]
  }

  /** The value of a four-byte little-endian length field. */
  function U32Value(b: seq<byte>): (n: u32)
    requires |b| == 4
  {
    b[0] as int + 256 * (b[1] as int + 256 * (b[2] as int + 256 * b[3] as int))
  }

  /** Reading back a written length field yields the written value. */
  lemma U32ValueOfU32LE(n: u32)
    ensures U32Value(U32LE(n)) == n
  {
    var q1 := n / 256;
    var q2 := q1 / 256;
    var q3 := q2 / 256;
    assert n == n % 256 + 256 * q1;
    assert q1 == q1 % 256 + 256 * q2;
    assert q2 == q2 % 256 + 256 * q3;
  }

  /** Writing a field read from four bytes reproduces those bytes. */
  lemma U32LEOfU32Value(b: seq<byte>)
    requires |b| == 4
    ensures U32LE(U32Value(b)) == b
  {
    var n := U32Value(b);
    var t1: int := b[1] as int + 256 * (b[2] as int + 256 * b[3] as int);
    var t2: int := b[2] as int + 256 * b[3] as int;
    assert n == b[0] as int + 256 * t1;
    assert n % 256 == b[0] && n / 256 == t1;
    assert t1 % 256 == b[1] && t1 / 256 == t2;
    assert t2 % 256 == b[2] && t2 / 256 == b[3];
  }

  /** The contents of a C string stored in `s`: the bytes before the first NUL,
      or all of `s` when it has none. This is what `strlen`, `std::string(p)`
      and `strcpy`-style reads see. */
  function CStr(s: seq<byte>): (r: seq<byte>)
    ensures |r| <= |s| && r == s[..|r|]
    ensures forall i :: 0 <= i < |r| ==> r[i] != 0
    ensures |r| < |s| ==> s[|r|] == 0
  {
    if s == [] || s[0] == 0 then [] else [s[0]] + CStr(s[1..])
  }

  /** A byte sequence without NUL reads back whole as a C string. */
  lemma {:induction false} CStrOfNulFree(s: seq<byte>)
    requires forall i :: 0 <= i < |s| ==> s[i] != 0
    ensures CStr(s) == s
  {
    if s != [] {
      CStrOfNulFree(s[1..]);
    }
  }

  /** `static_cast<uint32_t>(s.length())` followed by a copy of that many
      bytes: the sequence truncated to a 32-bit length. */
  function Fit(s: seq<byte>): (r: seq<byte>)
    ensures |r| < TWO_32 && |r| <= |s| && r == s[..|r|]
    ensures |s| < TWO_32 ==> r == s
  {
    s[..|s| % TWO_32]
  }
}
