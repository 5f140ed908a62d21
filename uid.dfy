/** Package `pkg/uid`: time-sortable identifiers. An id is the lowercase hex
    of a 12-byte buffer (4 bytes of seconds since a fixed epoch, big-endian,
    then 8 random bytes), optionally after a prefix and an underscore. The
    clock and the random source are parameters. */
module Uid {

  newtype byte = x: int | 0 <= x < 256

  const EpochTimestampInSeconds: int := 1700000000
  const Two32: int := 0x1_0000_0000

  /** `uint32(now - epochTimestampInSeconds)`: the conversion keeps the low
      32 bits, so times before the epoch or 2^32 seconds after it wrap. */
  function Stamp(now: int): (t: nat)
    ensures t < Two32
    ensures EpochTimestampInSeconds <= now < EpochTimestampInSeconds + Two32 ==> t == now - EpochTimestampInSeconds
  {
    (now - EpochTimestampInSeconds) % Two32
  }

  // Big-endian bytes

  function Pow256(w: nat): (p: nat)
    ensures p >= 1
  {
    if w == 0 then 1 else 256 * Pow256(w - 1)
  }

  /** The `w` low bytes of `v`, most significant first. */
  function BigEndian(v: nat, w: nat): (bs: seq<byte>)
    ensures |bs| == w
  {
    if w == 0 then [] else BigEndian(v / 256, w - 1) + [(v % 256) as byte]
  }

  /** The number a big-endian byte string denotes. */
  function BigEndianValue(bs: seq<byte>): nat {
    if bs == [] then 0 else BigEndianValue(bs[..|bs| - 1]) * 256 + bs[|bs| - 1] as int
  }

  /** `binary.BigEndian.PutUint32`: bytes `v >> 24`, `v >> 16`, `v >> 8`
      and `v`, each truncated to its low 8 bits. */
  function PutUint32(v: nat): (bs: seq<byte>)
    requires v < Two32
    ensures |bs| == 4
    ensures bs[0] as int * 0x100_0000 + bs[1] as int * 0x1_0000 + bs[2] as int * 0x100 + bs[3] as int == v
  {
    [(v / 0x100_0000) as byte, (v / 0x1_0000 % 0x100) as byte, (v / 0x100 % 0x100) as byte, (v % 0x100) as byte]
  }

  /** `PutUint32` writes the four low bytes of its argument, big-endian. */
  lemma PutUint32IsBigEndian(v: nat)
    requires v < Two32
    ensures PutUint32(v) == BigEndian(v, 4)
  {
    var a := v / 256;
    var b := a / 256;
    var c := b / 256;
    assert a == v / 0x100;
    assert b == v / 0x1_0000;
    assert c == v / 0x100_0000 && c < 256;
    assert BigEndian(c, 1) == [c as byte];
    assert BigEndian(b, 2) == [c as byte, (b % 256) as byte];
    assert BigEndian(a, 3) == [c as byte, (b % 256) as byte, (a % 256) as byte];
    assert BigEndian(v, 4) == [c as byte, (b % 256) as byte, (a % 256) as byte, (v % 256) as byte];
  }

  /** Reading the bytes back gives the number written. */
  lemma {:induction false} BigEndianRoundTrip(v: nat, w: nat)
    requires v < Pow256(w)
    ensures BigEndianValue(BigEndian(v, w)) == v
  {
    if w > 0 {
      var bs := BigEndian(v, w);
      assert bs[..|bs| - 1] == BigEndian(v / 256, w - 1);
      assert v / 256 < Pow256(w - 1);
      BigEndianRoundTrip(v / 256, w - 1);
      assert v == v / 256 * 256 + v % 256;
    }
  }

  // Hex

  predicate IsHexDigit(c: char) {
    '0' <= c <= '9' || 'a' <= c <= 'f'
  }

  /** One lowercase hex digit, as `%x` prints it. */
  function HexDigit(n: nat): (c: char)
    requires n < 16
    ensures IsHexDigit(c)
  {
    if n < 10 then ('0' as int + n) as char else ('a' as int + n - 10) as char
  }

  function DigitValue(c: char): (n: nat)
    requires IsHexDigit(c)
    ensures n < 16 && HexDigit(n) == c
  {
    if c <= '9' then c as int - '0' as int else c as int - 'a' as int + 10
  }

  function HexByte(b: byte): seq<char> {
    [HexDigit(b as int / 16), HexDigit(b as int % 16)]
  }

  /** `%x` of a byte slice: two lowercase digits per byte. */
  function Hex(bs: seq<byte>): (s: string)
    ensures |s| == 2 * |bs|
    ensures forall i :: 0 <= i < |s| ==> IsHexDigit(s[i])
  {
    if bs == [] then [] else HexByte(bs[0]) + Hex(bs[1..])
  }

  /** Reading hex back into bytes. */
  function UnHex(s: string): seq<byte>
    requires |s| % 2 == 0 && forall i :: 0 <= i < |s| ==> IsHexDigit(s[i])
  {
    if s == [] then [] else [(DigitValue(s[0]) * 16 + DigitValue(s[1])) as byte] + UnHex(s[2..])
  }

  lemma {:induction false} UnHexHex(bs: seq<byte>)
    ensures UnHex(Hex(bs)) == bs
  {
    if bs != [] {
      var s := Hex(bs);
      assert s[2..] == Hex(bs[1..]);
      assert DigitValue(s[0]) == bs[0] as int / 16 && DigitValue(s[1]) == bs[0] as int % 16;
      UnHexHex(bs[1..]);
    }
  }

  lemma {:induction false} HexAppend(a: seq<byte>, b: seq<byte>)
    ensures Hex(a + b) == Hex(a) + Hex(b)
  {
    if a == [] {
      assert a + b == b;
    } else {
      assert (a + b)[1..] == a[1..] + b;
      HexAppend(a[1..], b);
    }
  }

  // The identifier

  /** `fmt.Sprintf("%x", buf)` without a prefix, `"%s_%x"` with one. */
  function Format(prefix: string, buf: seq<byte>): (id: string)
    ensures |id| == (if prefix == [] then 0 else |prefix| + 1) + 2 * |buf|
    ensures prefix != [] ==> id[..|prefix| + 1] == prefix + "_"
    ensures id[|id| - 2 * |buf|..] == Hex(buf)
  {
    if prefix == [] then Hex(buf) else prefix + "_" + Hex(buf)
  }

  /** The buffer: the stamp in bytes 0-3, the random bytes in 4-11. */
  function Layout(now: int, random: seq<byte>): (buf: seq<byte>)
    ensures |buf| == 4 + |random| && buf[4..] == random
  {
    PutUint32(Stamp(now)) + random
  }

  /** `New`: the buffer is filled in place and then formatted. A failure of
      the random source panics in the source; here the random bytes are
      given, eight of them, as `rand.Read` fills `buf[4:]`. */
  method New(prefix: string, now: int, random: seq<byte>) returns (id: string)
    requires |random| == 8
    ensures id == Format(prefix, Layout(now, random))
  {
    var buf := new byte[12];
    var t := Stamp(now);
    buf[0] := (t / 0x100_0000) as byte;
    buf[1] := (t / 0x1_0000 % 0x100) as byte;
    buf[2] := (t / 0x100 % 0x100) as byte;
    buf[3] := (t % 0x100) as byte;
    for i := 0 to 8
      invariant buf[..4] == PutUint32(t)
      invariant forall j :: 0 <= j < i ==> buf[4 + j] == random[j]
    {
      buf[4 + i] := random[i];
    }
    assert buf[..] == PutUint32(t) + random;
    if prefix == [] {
      return Hex(buf[..]);
    }
    return prefix + "_" + Hex(buf[..]);
  }

  /** Every id is its prefix and an underscore (when the prefix is not
      empty) followed by 24 lowercase hex digits that decode to the buffer;
      without a prefix the id is just those 24 digits. */
  lemma IdShape(prefix: string, buf: seq<byte>)
    requires |buf| == 12
    ensures var id := Format(prefix, buf);
            (prefix == [] ==> |id| == 24) && (prefix != [] ==> id[..|prefix| + 1] == prefix + "_" && |id| == |prefix| + 25)
            && (forall i :: |id| - 24 <= i < |id| ==> IsHexDigit(id[i]))
            && UnHex(id[|id| - 24..]) == buf
  {
    var id := Format(prefix, buf);
    assert id[|id| - 24..] == Hex(buf);
    UnHexHex(buf);
  }

  /** The stamp bytes decode to the seconds since the epoch, modulo 2^32,
      and the last eight bytes are the random ones. */
  lemma LayoutFields(now: int, random: seq<byte>)
    requires |random| == 8
    ensures BigEndianValue(Layout(now, random)[..4]) == Stamp(now)
    ensures Layout(now, random)[4..] == random
  {
    PutUint32IsBigEndian(Stamp(now));
    assert Layout(now, random)[..4] == BigEndian(Stamp(now), 4);
    BigEndianRoundTrip(Stamp(now), 4);
  }

  /** Two ids with the same prefix are equal only if their buffers are. */
  lemma FormatInjective(prefix: string, a: seq<byte>, b: seq<byte>)
    requires |a| == |b| && Format(prefix, a) == Format(prefix, b)
    ensures a == b
  {
    var n := |Format(prefix, a)|;
    assert Format(prefix, a)[n - 2 * |a|..] == Hex(a);
    assert Format(prefix, b)[n - 2 * |b|..] == Hex(b);
    UnHexHex(a);
    UnHexHex(b);
  }

  // Lexicographic order

  predicate CharBelow(x: char, y: char) {
    x < y
  }

  predicate ByteBelow(x: byte, y: byte) {
    x < y
  }

  /** The order Go compares strings and byte slices by: the first differing
      element decides, and a proper prefix comes first. */
  predicate Precedes<T(==)>(a: seq<T>, b: seq<T>, below: (T, T) -> bool) {
    if a == [] then b != []
    else if b == [] then false
    else if a[0] != b[0] then below(a[0], b[0])
    else Precedes(a[1..], b[1..], below)
  }

  lemma {:induction false} PrecedesCommonPrefix<T>(p: seq<T>, x: seq<T>, y: seq<T>, below: (T, T) -> bool)
    requires Precedes(x, y, below)
    ensures Precedes(p + x, p + y, below)
  {
    if p == [] {
      assert p + x == x && p + y == y;
    } else {
      assert (p + x)[0] == p[0] == (p + y)[0];
      assert (p + x)[1..] == p[1..] + x;
      assert (p + y)[1..] == p[1..] + y;
      PrecedesCommonPrefix(p[1..], x, y, below);
    }
  }

  lemma {:induction false} PrecedesExtend<T>(a: seq<T>, b: seq<T>, c: seq<T>, d: seq<T>, below: (T, T) -> bool)
    requires |a| == |b| && Precedes(a, b, below)
    ensures Precedes(a + c, b + d, below)
  {
    assert a != [] && b != [];
    assert (a + c)[0] == a[0] && (b + d)[0] == b[0];
    if a[0] == b[0] {
      assert (a + c)[1..] == a[1..] + c;
      assert (b + d)[1..] == b[1..] + d;
      PrecedesExtend(a[1..], b[1..], c, d, below);
    }
  }

  /** Big-endian bytes of the same width sort as the numbers do. */
  lemma {:induction false} BigEndianOrder(v1: nat, v2: nat, w: nat)
    requires v1 < v2 < Pow256(w)
    ensures Precedes(BigEndian(v1, w), BigEndian(v2, w), ByteBelow)
  {
    assert w > 0;
    var q1, q2 := v1 / 256, v2 / 256;
    assert q2 < Pow256(w - 1);
    if q1 < q2 {
      BigEndianOrder(q1, q2, w - 1);
      PrecedesExtend(BigEndian(q1, w - 1), BigEndian(q2, w - 1),
                     [(v1 % 256) as byte], [(v2 % 256) as byte], ByteBelow);
    } else {
      assert q1 == q2 && v1 % 256 < v2 % 256;
      var last1, last2 := [(v1 % 256) as byte], [(v2 % 256) as byte];
      assert Precedes(last1, last2, ByteBelow);
      PrecedesCommonPrefix(BigEndian(q1, w - 1), last1, last2, ByteBelow);
    }
  }

  lemma HexByteOrder(x: byte, y: byte)
    requires x < y
    ensures Precedes(HexByte(x), HexByte(y), CharBelow)
  {
    var hx, hy := HexByte(x), HexByte(y);
    if x as int / 16 == y as int / 16 {
      assert hx[0] == hy[0] && hx[1..] == [hx[1]] && hy[1..] == [hy[1]];
      assert hx[1] < hy[1];
    } else {
      assert hx[0] < hy[0];
    }
  }

  /** Hex encoding keeps the order of byte strings of the same length. */
  lemma {:induction false} HexOrder(xs: seq<byte>, ys: seq<byte>)
    requires |xs| == |ys| && Precedes(xs, ys, ByteBelow)
    ensures Precedes(Hex(xs), Hex(ys), CharBelow)
  {
    assert xs != [] && ys != [];
    if xs[0] != ys[0] {
      HexByteOrder(xs[0], ys[0]);
      PrecedesExtend(HexByte(xs[0]), HexByte(ys[0]), Hex(xs[1..]), Hex(ys[1..]), CharBelow);
    } else {
      HexOrder(xs[1..], ys[1..]);
      PrecedesCommonPrefix(HexByte(xs[0]), Hex(xs[1..]), Hex(ys[1..]), CharBelow);
    }
  }

  /** Ids are time-sortable: with the same prefix, an id made at an earlier
      second (both within 2^32 seconds of the epoch) sorts first, whatever
      the random bytes. */
  lemma TimeSortable(prefix: string, now1: int, now2: int, random1: seq<byte>, random2: seq<byte>)
    requires EpochTimestampInSeconds <= now1 < now2 < EpochTimestampInSeconds + Two32
    requires |random1| == 8 && |random2| == 8
    ensures Precedes(Format(prefix, Layout(now1, random1)), Format(prefix, Layout(now2, random2)), CharBelow)
  {
    var s1, s2 := PutUint32(Stamp(now1)), PutUint32(Stamp(now2));
    PutUint32IsBigEndian(Stamp(now1));
    PutUint32IsBigEndian(Stamp(now2));
    BigEndianOrder(Stamp(now1), Stamp(now2), 4);
    HexOrder(s1, s2);
    PrecedesExtend(Hex(s1), Hex(s2), Hex(random1), Hex(random2), CharBelow);
    HexAppend(s1, random1);
    HexAppend(s2, random2);
    if prefix != [] {
      PrecedesCommonPrefix(prefix + "_", Hex(s1 + random1), Hex(s2 + random2), CharBelow);
    }
  }
}
