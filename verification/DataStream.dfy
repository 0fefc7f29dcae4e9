/** The wire streams: fixed-width integers in both byte orders, a 7-bit code that drops
    leading zeros, raw bytes and alignment, written and read at a moving offset. */
module DataStream {
  import opened Util

  // ------------------------------------------------------------------- the 7-bit code

  /** Seven bits a byte, least significant first; the top bit says that more follow. */
  function Compressed(v: nat): (bytes: seq<Byte>)
    ensures bytes != []
  {
    if v < 128 then [v] else [128 + v % 128] + Compressed(v / 128)
  }

  datatype Decoded = Decoded(value: nat, used: nat)

  /** What the continuation bits spell, before it is cut to the width of a type. */
  function Decompress(bytes: seq<Byte>): (r: Option<Decoded>)
    ensures r.Some? ==> 0 < r.value.used <= |bytes|
  {
    if bytes == [] then None
    else if bytes[0] < 128 then Some(Decoded(bytes[0], 1))
    else match Decompress(bytes[1..])
      case None => None
      case Some(rest) => Some(Decoded(bytes[0] - 128 + 128 * rest.value, rest.used + 1))
  }

  lemma CompressedOneMore(done: seq<Byte>, v: nat)
    requires v >= 128
    ensures done + Compressed(v) == done + [128 + v % 128] + Compressed(v / 128)
  {}

  /** Decoding stops exactly at the end of the code, whatever follows. */
  lemma {:induction false} CompressedRoundTrip(v: nat, rest: seq<Byte>)
    ensures Decompress(Compressed(v) + rest) == Some(Decoded(v, |Compressed(v)|))
    decreases v
  {
    if v < 128 {
    } else {
      CompressedRoundTrip(v / 128, rest);
      var code := Compressed(v / 128);
      assert Compressed(v) == [128 + v % 128] + code;
      hide Compressed;
      DecompressMore(128 + v % 128, code + rest);
      assert [128 + v % 128] + code + rest == [128 + v % 128] + (code + rest);
    }
  }

  lemma DecompressMore(first: Byte, rest: seq<Byte>)
    requires first >= 128 && Decompress(rest).Some?
    ensures var d := Decompress(rest).value;
            Decompress([first] + rest) == Some(Decoded(first - 128 + 128 * d.value, d.used + 1))
  {
    assert ([first] + rest)[1..] == rest;
  }

  /** No code is the beginning of another, so codes can be put end to end. */
  lemma CompressedPrefixFree(v: nat, w: nat, rest: seq<Byte>)
    requires Compressed(v) <= Compressed(w) + rest
    ensures v == w
  {
    var all := Compressed(w) + rest;
    CompressedRoundTrip(w, rest);
    CompressedRoundTrip(v, all[|Compressed(v)|..]);
    assert all == Compressed(v) + all[|Compressed(v)|..];
  }

  function Power(base: nat, n: nat): nat { if n == 0 then 1 else base * Power(base, n - 1) }

  /** `n` bytes are enough exactly for the values of `7 * n` bits. */
  lemma {:induction false} CompressedLength(v: nat, n: nat)
    requires n > 0
    ensures |Compressed(v)| <= n <==> v < Power(128, n)
    decreases n
  {
    assert Power(128, 1) == 128 * Power(128, 0);
    if v < 128 {
      PowerAtLeast(n);
    } else if n > 1 {
      CompressedLength(v / 128, n - 1);
      assert v < 128 * Power(128, n - 1) <==> v / 128 < Power(128, n - 1);
    }
  }

  lemma {:induction false} PowerAtLeast(n: nat)
    requires n > 0
    ensures Power(128, n) >= 128
  {
    if n > 1 { PowerAtLeast(n - 1); }
  }

  /** Any 64-bit value takes at most ten bytes, any 32-bit one five, 16-bit three, 8-bit two. */
  lemma CompressedAtMostTen(v: nat)
    ensures v < 0x1_0000_0000_0000_0000 ==> |Compressed(v)| <= 10
    ensures v < 0x1_0000_0000 ==> |Compressed(v)| <= 5
    ensures v < 0x1_0000 ==> |Compressed(v)| <= 3
    ensures v < 0x100 ==> |Compressed(v)| <= 2
  {
    PowersOf128();
    CompressedLength(v, 10);
    CompressedLength(v, 5);
    CompressedLength(v, 3);
    CompressedLength(v, 2);
  }

  lemma PowersOf128()
    ensures Power(128, 2) == 0x4000
    ensures Power(128, 3) == 0x20_0000
    ensures Power(128, 5) == 0x8_0000_0000
    ensures Power(128, 10) == 0x40_0000_0000_0000_0000
  {
    assert Power(128, 1) == 128 * Power(128, 0);
    assert Power(128, 4) == 128 * Power(128, 3);
    assert Power(128, 6) == 128 * Power(128, 5);
    assert Power(128, 7) == 128 * Power(128, 6);
    assert Power(128, 8) == 128 * Power(128, 7);
    assert Power(128, 9) == 128 * Power(128, 8);
  }

  // ---- what the bytes are, one by one

  /** Byte `i` of a code: seven bits of the value, the `i`th from the least significant on,
      and the top bit on every byte but the last. */
  lemma {:induction false} CompressedByte(v: nat, i: nat)
    requires i < |Compressed(v)|
    ensures Power(128, i) > 0
    ensures Compressed(v)[i] == v / Power(128, i) % 128 + (if i + 1 < |Compressed(v)| then 128 else 0)
    decreases i
  {
    if i > 0 {
      CompressedByte(v / 128, i - 1);
      DivideTwice(v, 128, Power(128, i - 1));
    }
  }

  lemma DivideTwice(v: nat, a: nat, b: nat)
    requires a > 0 && b > 0
    ensures a * b > 0 && v / (a * b) == v / a / b
  {
    var q, r := v / a, v % a;
    var q1, r1 := q / b, q % b;
    TwoDivisions(v, a, b, q, r, q1, r1);
    QuotientIs(v, q1, a * r1 + r, a * b);
  }

  lemma TwoDivisions(v: nat, a: nat, b: nat, q: nat, r: nat, q1: nat, r1: nat)
    requires v == a * q + r && r < a && q == b * q1 + r1 && r1 < b
    ensures a * b > 0 && v == a * b * q1 + (a * r1 + r) && a * r1 + r < a * b
  {
    Expand(a, b, q1, r1);
    AtMostProduct(a, b, r1);
  }

  lemma Expand(a: int, b: int, q: int, r: int)
    ensures a * (b * q + r) == a * b * q + a * r
  {}

  lemma AtMostProduct(a: nat, b: nat, r: nat)
    requires r < b
    ensures a * r + a <= a * b && (a > 0 ==> a * b > 0)
  {
    Distribute(a, b, r);
    AtLeastOnce(a, b - r);
  }

  lemma QuotientIs(x: nat, q: nat, r: nat, m: nat)
    requires m > 0 && x == m * q + r && r < m
    ensures x / m == q
  {
    var q', r' := x / m, x % m;
    assert x == m * q' + r';
    Distribute(m, q, q');
    Distribute(m, q', q);
    if q > q' {
      AtLeastOnce(m, q - q');
    } else if q < q' {
      AtLeastOnce(m, q' - q);
    }
  }

  /** The first `n` bytes, each weighted by its place; `base` is 128 for codes, of whose
      bytes the top bit does not count, and 256 for fixed-width integers. */
  function Weighted(bytes: seq<Byte>, base: nat, n: nat): nat
    requires base > 0 && n <= |bytes|
  {
    if n == 0 then 0 else Weighted(bytes, base, n - 1) + bytes[n - 1] % base * Power(base, n - 1)
  }

  lemma {:induction false} WeightedShift(first: Byte, rest: seq<Byte>, base: nat, n: nat)
    requires base > 0 && n <= |rest|
    ensures Weighted([first] + rest, base, n + 1) == first % base + base * Weighted(rest, base, n)
    ensures Weighted(rest, base, 0) == 0
    decreases n
  {
    var all := [first] + rest;
    if n > 0 {
      WeightedShift(first, rest, base, n - 1);
      assert all[n] == rest[n - 1];
      Factored(base, Weighted(rest, base, n - 1), rest[n - 1] % base, Power(base, n - 1));
    } else {
      assert Weighted(all, base, 1) == Weighted(all, base, 0) + all[0] % base * Power(base, 0);
    }
  }

  lemma Factored(base: int, w: int, b: int, p: int)
    ensures base * (w + b * p) == base * w + b * (base * p)
  {
    Expand(base, 1, w, b * p);
    Commute(base, b, p);
  }

  lemma Commute(a: int, b: int, c: int)
    ensures a * (b * c) == b * (a * c)
  {}

  predicate AllGoOn(bytes: seq<Byte>, n: nat)
    requires n <= |bytes|
  {
    forall i | 0 <= i < n :: bytes[i] >= 128
  }

  lemma GoesOn(first: Byte, rest: seq<Byte>, n: nat)
    requires n <= |rest|
    ensures AllGoOn([first] + rest, n + 1) <==> first >= 128 && AllGoOn(rest, n)
  {
    var all := [first] + rest;
    assert all[0] == first && forall i | 0 <= i < n :: all[i + 1] == rest[i];
    if AllGoOn(all, n + 1) {
      forall i | 0 <= i < n ensures rest[i] >= 128 { assert all[i + 1] >= 128; }
    }
  }

  /** Decoding stops at the first byte whose top bit is clear and fails if there is none;
      the value is the sum of the low seven bits of the bytes up to it, by their places. */
  lemma {:induction false} DecompressIs(bytes: seq<Byte>)
    ensures Decompress(bytes) == None <==> AllGoOn(bytes, |bytes|)
    ensures Decompress(bytes).Some? ==>
              var d := Decompress(bytes).value;
              && 0 < d.used <= |bytes| && bytes[d.used - 1] < 128 && AllGoOn(bytes, d.used - 1)
              && d.value == Weighted(bytes, 128, d.used)
  {
    hide Weighted, Power;
    if bytes != [] {
      var first, rest := bytes[0], bytes[1..];
      assert bytes == [first] + rest;
      if first < 128 {
        WeightedShift(first, rest, 128, 0);
      } else {
        hide AllGoOn;
        DecompressIs(rest);
        GoesOn(first, rest, |rest|);
        if Decompress(rest).Some? {
          var d := Decompress(rest).value;
          WeightedShift(first, rest, 128, d.used);
          GoesOn(first, rest, d.used - 1);
          assert bytes[d.used] == rest[d.used - 1];
        }
      }
    }
  }

  /** Casting a signed integer to the unsigned type of its width, and back. */
  function ToUnsigned(x: int, modulus: nat): int { if x < 0 then x + modulus else x }

  function ToSigned(u: nat, modulus: nat): int { if 2 * u >= modulus then u - modulus else u }

  /** A signed value survives the unsigned 7-bit code of its width. */
  lemma SignedRoundTrip(x: int, modulus: nat, rest: seq<Byte>)
    requires 0 <= 2 * x + modulus && 2 * x < modulus
    ensures 0 <= ToUnsigned(x, modulus) < modulus && ToUnsigned(x, modulus) == x % modulus
    ensures var d := Decompress(Compressed(ToUnsigned(x, modulus)) + rest);
            d.Some? && ToSigned(d.value.value, modulus) == x
  {
    var u := ToUnsigned(x, modulus);
    if x < 0 { RemainderIs(x, -1, u, modulus); } else { RemainderIs(x, 0, u, modulus); }
    CompressedRoundTrip(u, rest);
  }

  // --------------------------------------------------------------------- fixed width

  function LittleEndian(v: nat, width: nat): (bytes: seq<Byte>)
    ensures |bytes| == width
    decreases width
  {
    if width == 0 then [] else [v % 256] + LittleEndian(v / 256, width - 1)
  }

  function BigEndian(v: nat, width: nat): (bytes: seq<Byte>)
    ensures |bytes| == width
    decreases width
  {
    if width == 0 then [] else BigEndian(v / 256, width - 1) + [v % 256]
  }

  function FromLittleEndian(bytes: seq<Byte>): nat {
    if bytes == [] then 0 else bytes[0] + 256 * FromLittleEndian(bytes[1..])
  }

  function FromBigEndian(bytes: seq<Byte>): nat {
    if bytes == [] then 0 else 256 * FromBigEndian(bytes[..|bytes| - 1]) + bytes[|bytes| - 1]
  }

  lemma {:induction false} FixedRoundTrip(v: nat, width: nat)
    requires v < Power(256, width)
    ensures FromLittleEndian(LittleEndian(v, width)) == v
    ensures FromBigEndian(BigEndian(v, width)) == v
    decreases width
  {
    if width > 0 {
      assert v / 256 < Power(256, width - 1);
      FixedRoundTrip(v / 256, width - 1);
      assert LittleEndian(v, width)[1..] == LittleEndian(v / 256, width - 1);
      assert BigEndian(v, width)[..width - 1] == BigEndian(v / 256, width - 1);
    }
  }

  /** Byte `i` of a fixed-width integer in either byte order. */
  lemma {:induction false} FixedByte(v: nat, width: nat, i: nat)
    requires i < width
    ensures Power(256, i) > 0 && Power(256, width - 1 - i) > 0
    ensures LittleEndian(v, width)[i] == v / Power(256, i) % 256
    ensures BigEndian(v, width)[i] == v / Power(256, width - 1 - i) % 256
    decreases width
  {
    if i > 0 {
      FixedByte(v / 256, width - 1, i - 1);
      DivideTwice(v, 256, Power(256, i - 1));
    }
    if i < width - 1 {
      FixedByte(v / 256, width - 1, i);
      DivideTwice(v, 256, Power(256, width - 2 - i));
      assert BigEndian(v, width)[i] == BigEndian(v / 256, width - 1)[i];
    }
  }

  function Reversed(bytes: seq<Byte>): seq<Byte> {
    seq(|bytes|, i requires 0 <= i < |bytes| => bytes[|bytes| - 1 - i])
  }

  /** What a reader makes of the bytes: their sum by places, from either end. */
  lemma {:induction false} LittleValue(bytes: seq<Byte>)
    ensures FromLittleEndian(bytes) == Weighted(bytes, 256, |bytes|)
    decreases |bytes|
  {
    if bytes != [] {
      LittleValue(bytes[1..]);
      assert bytes == [bytes[0]] + bytes[1..];
      WeightedShift(bytes[0], bytes[1..], 256, |bytes| - 1);
    }
  }

  lemma {:induction false} BigValue(bytes: seq<Byte>)
    ensures FromBigEndian(bytes) == Weighted(Reversed(bytes), 256, |bytes|)
    decreases |bytes|
  {
    if bytes != [] {
      var n := |bytes| - 1;
      BigValue(bytes[..n]);
      assert Reversed(bytes) == [bytes[n]] + Reversed(bytes[..n]);
      WeightedShift(bytes[n], Reversed(bytes[..n]), 256, n);
    }
  }

  // --------------------------------------------------------------- writing at an offset

  /** Overwrites from `offset` on, and extends the data where it has to. */
  function Put(data: seq<Byte>, offset: nat, bytes: seq<Byte>): seq<Byte>
    requires offset <= |data|
  {
    var end := offset + |bytes|;
    data[..offset] + bytes + if end <= |data| then data[end..] else []
  }

  lemma PutPut(data: seq<Byte>, offset: nat, a: seq<Byte>, b: seq<Byte>)
    requires offset <= |data|
    ensures offset + |a| <= |Put(data, offset, a)|
    ensures Put(Put(data, offset, a), offset + |a|, b) == Put(data, offset, a + b)
  {}

  lemma PutNothing(data: seq<Byte>, offset: nat)
    requires offset <= |data|
    ensures Put(data, offset, []) == data
  {}

  function Max(a: nat, b: nat): nat { if a < b then b else a }

  /** Writing changes its own window only and never shrinks the data. */
  lemma PutChangesWindowOnly(data: seq<Byte>, offset: nat, bytes: seq<Byte>)
    requires offset <= |data|
    ensures var after := Put(data, offset, bytes);
            && |after| == Max(|data|, offset + |bytes|)
            && after[offset..offset + |bytes|] == bytes
            && forall i | 0 <= i < |data| && !(offset <= i < offset + |bytes|) :: after[i] == data[i]
  {}

  function RoundUp(offset: nat, size: nat): nat {
    if size == 0 then offset else (offset + size - 1) / size * size
  }

  /** The least multiple of the alignment that is not before the offset. */
  lemma RoundUpIsLeast(offset: nat, size: nat)
    requires size > 0
    ensures offset <= RoundUp(offset, size) < offset + size && RoundUp(offset, size) % size == 0
  {
    var q, r := (offset + size - 1) / size, (offset + size - 1) % size;
    assert offset + size - 1 == q * size + r && 0 <= r < size;
    MultipleHasNoRemainder(q, size);
  }

  lemma MultipleHasNoRemainder(q: nat, size: nat)
    requires size > 0
    ensures q * size % size == 0
  {
    if q > 0 {
      MultipleHasNoRemainder(q - 1, size);
      assert q * size == (q - 1) * size + size;
      assert ((q - 1) * size + size) % size == (q - 1) * size % size by {
        AddingOneMore((q - 1) * size, size);
      }
    }
  }

  lemma AddingOneMore(x: nat, m: nat)
    requires m > 0
    ensures (x + m) % m == x % m
  {
    var q, r := x / m, x % m;
    assert x + m == m * (q + 1) + r;
    RemainderIs(x + m, q + 1, r, m);
  }

  lemma RemainderIs(x: int, q: int, r: nat, m: nat)
    requires 0 <= r < m && x == m * q + r
    ensures x % m == r
  {
    var q', r' := x / m, x % m;
    assert x == m * q' + r';
    Distribute(m, q, q');
    Distribute(m, q', q);
    if q > q' {
      AtLeastOnce(m, q - q');
    } else if q < q' {
      AtLeastOnce(m, q' - q);
    }
  }

  lemma Distribute(m: int, a: int, b: int)
    ensures m * (a - b) == m * a - m * b
  {}

  lemma AtLeastOnce(m: nat, k: nat)
    requires k >= 1
    ensures m * k >= m
  {}

  function Padding(n: nat): seq<Byte> { seq(n, _ => 0xff) }

  // ----------------------------------------------------------------------- schedules

  /** One write: a fixed-width integer, a compressed integer of a type with `modulus`
      values, raw bytes, or an alignment. */
  datatype Item =
    | Fixed(width: nat, big: bool, value: nat)
    | Packed(modulus: nat, value: nat)
    | Raw(bytes: seq<Byte>)
    | Align(size: nat)
  {
    predicate Valid() {
      match this
      case Fixed(width, _, value) => value < Power(256, width)
      case Packed(modulus, value) => value < modulus
      case _ => true
    }
  }

  /** The reader knows everything about an item but its value. */
  datatype Kind = FixedKind(width: nat, big: bool) | PackedKind(modulus: nat) | RawKind(size: nat) | AlignKind(size: nat)

  function KindOf(item: Item): Kind {
    match item
    case Fixed(width, big, _) => FixedKind(width, big)
    case Packed(modulus, _) => PackedKind(modulus)
    case Raw(bytes) => RawKind(|bytes|)
    case Align(size) => AlignKind(size)
  }

  function KindsOf(items: seq<Item>): seq<Kind> {
    seq(|items|, i requires 0 <= i < |items| => KindOf(items[i]))
  }

  function BytesOf(item: Item, offset: nat): seq<Byte> {
    match item
    case Fixed(width, big, value) => if big then BigEndian(value, width) else LittleEndian(value, width)
    case Packed(_, value) => Compressed(value)
    case Raw(bytes) => bytes
    case Align(size) => Padding(if RoundUp(offset, size) > offset then RoundUp(offset, size) - offset else 0)
  }

  function BytesOfAll(items: seq<Item>, offset: nat): seq<Byte> {
    if items == [] then []
    else
      var first := BytesOf(items[0], offset);
      first + BytesOfAll(items[1..], offset + |first|)
  }

  datatype Reading = Reading(item: Item, offset: nat)

  /** Reading one item; `None` is the error of reading or seeking beyond the end. */
  function ReadItem(data: seq<Byte>, offset: nat, kind: Kind): Option<Reading> {
    match kind
    case FixedKind(width, big) =>
      if |data| < offset + width then None
      else
        var bytes := data[offset..offset + width];
        var value := if big then FromBigEndian(bytes) else FromLittleEndian(bytes);
        Some(Reading(Fixed(width, big, value), offset + width))
    case PackedKind(modulus) =>
      if |data| < offset || modulus == 0 then None
      else (match Decompress(data[offset..])
        case None => None
        case Some(d) => Some(Reading(Packed(modulus, d.value % modulus), offset + d.used)))
    case RawKind(size) =>
      if |data| < offset + size then None
      else Some(Reading(Raw(data[offset..offset + size]), offset + size))
    case AlignKind(size) =>
      if |data| < RoundUp(offset, size) then None
      else Some(Reading(Align(size), RoundUp(offset, size)))
  }

  datatype Readings = Readings(items: seq<Item>, offset: nat)

  function ReadItems(data: seq<Byte>, offset: nat, kinds: seq<Kind>): Option<Readings>
    decreases |kinds|
  {
    if kinds == [] then Some(Readings([], offset))
    else match ReadItem(data, offset, kinds[0])
      case None => None
      case Some(first) =>
        match ReadItems(data, first.offset, kinds[1..])
        case None => None
        case Some(rest) => Some(Readings([first.item] + rest.items, rest.offset))
  }

  /** The wire format, byte by byte: what each kind of item leaves at its offset. */
  lemma BytesOnWire(item: Item, offset: nat, i: nat)
    requires item.Valid() && i < |BytesOf(item, offset)|
    ensures item.Fixed? ==>
              && |BytesOf(item, offset)| == item.width
              && var p := Power(256, if item.big then item.width - 1 - i else i);
                 p > 0 && BytesOf(item, offset)[i] == item.value / p % 256
    ensures item.Packed? ==>
              && Power(128, i) > 0
              && BytesOf(item, offset)[i]
                   == item.value / Power(128, i) % 128 + (if item.value / Power(128, i) >= 128 then 128 else 0)
    ensures item.Raw? ==> BytesOf(item, offset) == item.bytes
    ensures item.Align? ==>
              && item.size > 0 && |BytesOf(item, offset)| < item.size
              && (offset + |BytesOf(item, offset)|) % item.size == 0 && BytesOf(item, offset)[i] == 255
  {
    match item
    case Fixed(width, big, value) => FixedByte(value, width, i);
    case Packed(_, value) =>
      CompressedByte(value, i);
      CompressedGoesOn(value, i);
    case Raw(_) =>
    case Align(size) => if size > 0 { RoundUpIsLeast(offset, size); }
  }

  /** More bytes follow exactly while there are bits left. */
  lemma {:induction false} CompressedGoesOn(v: nat, i: nat)
    requires i < |Compressed(v)|
    ensures Power(128, i) > 0 && (i + 1 < |Compressed(v)| <==> v / Power(128, i) >= 128)
    decreases i
  {
    if i > 0 {
      CompressedGoesOn(v / 128, i - 1);
      DivideTwice(v, 128, Power(128, i - 1));
    }
  }

  /** The bytes of an integer, least significant first. */
  function InOrder(bytes: seq<Byte>, big: bool): seq<Byte> { if big then Reversed(bytes) else bytes }

  /** What the reader makes of data that need not have been written by this program: a
      fixed-width integer is the sum of its bytes by their places. */
  lemma FixedRead(data: seq<Byte>, offset: nat, width: nat, big: bool)
    ensures ReadItem(data, offset, FixedKind(width, big)) == None <==> offset + width > |data|
    ensures offset + width <= |data| ==>
              |InOrder(data[offset..offset + width], big)| == width
              && ReadItem(data, offset, FixedKind(width, big))
                   == Some(Reading(Fixed(width, big, Weighted(InOrder(data[offset..offset + width], big), 256, width)),
                                   offset + width))
  {
    if offset + width <= |data| {
      LittleValue(data[offset..offset + width]);
      BigValue(data[offset..offset + width]);
    }
  }

  /** A compressed integer ends at the first byte whose top bit is clear, and fails if there
      is none. */
  lemma PackedRead(data: seq<Byte>, offset: nat, modulus: nat)
    requires modulus > 0 && offset <= |data|
    ensures ReadItem(data, offset, PackedKind(modulus)) == None <==> forall i | offset <= i < |data| :: data[i] >= 128
    ensures match ReadItem(data, offset, PackedKind(modulus))
            case None => true
            case Some(r) =>
              && offset < r.offset <= |data| && data[r.offset - 1] < 128
              && (forall i | offset <= i < r.offset - 1 :: data[i] >= 128)
              && r.item == Packed(modulus, Weighted(data[offset..], 128, r.offset - offset) % modulus)
  {
    var bytes := data[offset..];
    DecompressIs(bytes);
    hide Decompress, Weighted;
    forall i | offset <= i < |data| ensures data[i] == bytes[i - offset] {}
    if forall i | offset <= i < |data| :: data[i] >= 128 {
      forall i | 0 <= i < |bytes| ensures bytes[i] >= 128 { assert bytes[i] == data[offset + i]; }
    }
  }

  /** An alignment goes to the next multiple, and fails if the data ends before that. */
  lemma AlignRead(data: seq<Byte>, offset: nat, size: nat)
    requires size > 0
    ensures match ReadItem(data, offset, AlignKind(size))
            case None => forall at | offset <= at <= |data| :: at % size != 0
            case Some(r) =>
              && r.item == Align(size) && offset <= r.offset <= |data|
              && r.offset < offset + size && r.offset % size == 0
  {
    RoundUpIsLeast(offset, size);
    forall at | offset <= at < RoundUp(offset, size) ensures at % size != 0 {
      NoneBetween(at, RoundUp(offset, size), size);
    }
  }

  /** Between multiples that are less than twice the size apart there is none. */
  lemma NoneBetween(at: nat, next: nat, size: nat)
    requires size > 0 && next % size == 0 && next - size < at < next
    ensures at % size != 0
  {
    var q, q' := next / size, at / size;
    assert next == size * q + next % size && at == size * q' + at % size;
    if at % size == 0 {
      Distribute(size, q, q');
      if q - q' >= 1 {
        if q - q' > 1 { AtLeastOnce(size, q - q' - 1); Distribute(size, q - q', 1); }
      } else {
        Distribute(size, q', q);
        if q' > q { AtLeastOnce(size, q' - q); }
      }
      assert false;
    }
  }

  /** For instance, a 16-bit length in network order, and 300 in the 7-bit code. */
  lemma WireSamples()
    ensures BytesOf(Fixed(2, true, 0x0102), 0) == [0x01, 0x02]
    ensures BytesOf(Fixed(2, false, 0x0102), 0) == [0x02, 0x01]
    ensures BytesOf(Packed(0x1_0000, 300), 0) == [0xac, 0x02]
  {
    assert BigEndian(1, 1) == [1] && BigEndian(0x0102, 2) == BigEndian(1, 1) + [2];
    assert LittleEndian(1, 1) == [1];
    assert Compressed(2) == [2];
  }

  /** One item read back from where it was written. */
  lemma ItemRoundTrip(data: seq<Byte>, offset: nat, item: Item)
    requires item.Valid() && offset + |BytesOf(item, offset)| <= |data|
    requires data[offset..offset + |BytesOf(item, offset)|] == BytesOf(item, offset)
    ensures ReadItem(data, offset, KindOf(item)) == Some(Reading(item, offset + |BytesOf(item, offset)|))
  {
    match item
    case Fixed(width, big, value) => FixedRoundTrip(value, width);
    case Packed(modulus, value) =>
      var rest := data[offset + |Compressed(value)|..];
      CompressedRoundTrip(value, rest);
      assert data[offset..] == Compressed(value) + rest;
      assert value % modulus == value by { RemainderIs(value, 0, value, modulus); }
    case Raw(bytes) =>
    case Align(size) => if size > 0 { RoundUpIsLeast(offset, size); }
  }

  /** Main result: a schedule of mixed writes, read back with the same schedule, gives the
      same values and the same final offset, wherever in the data it was written. */
  lemma {:induction false} ScheduleRoundTrip(data: seq<Byte>, offset: nat, items: seq<Item>)
    requires forall i | 0 <= i < |items| :: items[i].Valid()
    requires offset + |BytesOfAll(items, offset)| <= |data|
    requires data[offset..offset + |BytesOfAll(items, offset)|] == BytesOfAll(items, offset)
    ensures ReadItems(data, offset, KindsOf(items))
         == Some(Readings(items, offset + |BytesOfAll(items, offset)|))
    decreases |items|
  {
    hide ReadItem, BytesOf, KindOf;
    if items != [] {
      var first := BytesOf(items[0], offset);
      var all := BytesOfAll(items, offset);
      var next := offset + |first|;
      assert data[offset..next] == all[..|first|] == first;
      assert data[next..offset + |all|] == all[|first|..] == BytesOfAll(items[1..], next);
      ItemRoundTrip(data, offset, items[0]);
      ScheduleRoundTrip(data, next, items[1..]);
      assert KindsOf(items)[0] == KindOf(items[0]) && KindsOf(items)[1..] == KindsOf(items[1..]);
      assert [items[0]] + items[1..] == items && |all| == |first| + |BytesOfAll(items[1..], next)|;
    }
  }

  /** The same as seen from the writer, who may start in the middle of older data after
      seeking back: what was outside the written window is still there. */
  lemma WrittenScheduleReadsBack(data: seq<Byte>, offset: nat, items: seq<Item>)
    requires offset <= |data| && forall i | 0 <= i < |items| :: items[i].Valid()
    ensures var written := BytesOfAll(items, offset);
            var after := Put(data, offset, written);
            && ReadItems(after, offset, KindsOf(items)) == Some(Readings(items, offset + |written|))
            && |data| <= |after|
            && forall i | 0 <= i < |data| && !(offset <= i < offset + |written|) :: after[i] == data[i]
  {
    var written := BytesOfAll(items, offset);
    PutChangesWindowOnly(data, offset, written);
    ScheduleRoundTrip(Put(data, offset, written), offset, items);
  }

  // ----------------------------------------------------------------------- the encoder

  class EncodeDataStream {
    var data: seq<Byte>
    var offset: nat

    ghost predicate Valid()
      reads this
    {
      offset <= |data|
    }

    constructor ()
      ensures Valid() && data == [] && offset == 0
    {
      data, offset := [], 0;
    }

    /** Growing leaves the new bytes undetermined. */
    method Resize(size: nat)
      requires |data| <= size
      modifies this`data
      ensures |data| == size && data[..old(|data|)] == old(data)
    {
      data := data + seq(size - |data|, _ => 0);
    }

    method Seek(to: nat)
      modifies this
      ensures Valid() && offset == to
      ensures |data| == Max(old(|data|), to) && data[..old(|data|)] == old(data)
    {
      offset := to;
      if |data| < offset { Resize(offset); }
    }

    /** The common shape of all fixed-size writes. */
    method WriteBytes(bytes: seq<Byte>)
      requires Valid()
      modifies this
      ensures Valid() && offset == old(offset) + |bytes|
      ensures data == Put(old(data), old(offset), bytes)
    {
      var at := offset;
      offset := offset + |bytes|;
      if |data| < offset { Resize(offset); }
      data := data[..at] + bytes + data[offset..];
    }

    method WriteUInt8(value: Byte)
      requires Valid()
      modifies this
      ensures Valid() && offset == old(offset) + 1
      ensures data == Put(old(data), old(offset), [value])
    {
      WriteBytes([value]);
    }

    method WriteFixed(width: nat, big: bool, value: nat)
      requires Valid()
      modifies this
      ensures Valid() && offset == old(offset) + width
      ensures data == Put(old(data), old(offset), BytesOf(Fixed(width, big, value), old(offset)))
    {
      if big { WriteBytes(BigEndian(value, width)); } else { WriteBytes(LittleEndian(value, width)); }
    }

    method WriteCompressed(value: nat)
      requires Valid()
      modifies this
      ensures Valid() && offset == old(offset) + |Compressed(value)|
      ensures data == Put(old(data), old(offset), Compressed(value))
    {
      hide Put;
      var v := value;
      ghost var done: seq<Byte> := [];
      PutNothing(data, offset);
      while v >= 128
        invariant Valid() && offset == old(offset) + |done|
        invariant data == Put(old(data), old(offset), done)
        invariant done + Compressed(v) == Compressed(value)
      {
        PutPut(old(data), old(offset), done, [128 + v % 128]);
        CompressedOneMore(done, v);
        WriteUInt8(128 + v % 128);
        done := done + [128 + v % 128];
        v := v / 128;
      }
      PutPut(old(data), old(offset), done, [v]);
      WriteUInt8(v);
    }

    method Align(size: nat)
      requires Valid()
      modifies this
      ensures Valid() && offset == if size == 0 then old(offset) else RoundUp(old(offset), size)
      ensures data == Put(old(data), old(offset), BytesOf(Item.Align(size), old(offset)))
    {
      PutNothing(data, offset);
      if size == 0 { return; }
      RoundUpIsLeast(offset, size);
      var to := (offset + size - 1) / size * size;
      while offset < to
        invariant Valid() && old(offset) <= offset <= to
        invariant data == Put(old(data), old(offset), Padding(offset - old(offset)))
      {
        PutPut(old(data), old(offset), Padding(offset - old(offset)), [0xff]);
        assert Padding(offset - old(offset)) + [0xff] == Padding(offset + 1 - old(offset));
        WriteUInt8(0xff);
      }
    }

    method WriteItem(item: Item)
      requires Valid()
      modifies this
      ensures Valid() && offset == old(offset) + |BytesOf(item, old(offset))|
      ensures data == Put(old(data), old(offset), BytesOf(item, old(offset)))
    {
      match item {
        case Fixed(width, big, value) => WriteFixed(width, big, value);
        case Packed(_, value) => WriteCompressed(value);
        case Raw(bytes) => WriteBytes(bytes);
        case Align(size) =>
          if size > 0 { RoundUpIsLeast(offset, size); }
          Align(size);
      }
    }

    method WriteSchedule(items: seq<Item>)
      requires Valid()
      modifies this
      ensures Valid() && offset == old(offset) + |BytesOfAll(items, old(offset))|
      ensures data == Put(old(data), old(offset), BytesOfAll(items, old(offset)))
    {
      hide BytesOf, Put;
      ghost var done: seq<Byte> := [];
      PutNothing(data, offset);
      assert items[0..] == items;
      for i := 0 to |items|
        invariant Valid() && offset == old(offset) + |done|
        invariant data == Put(old(data), old(offset), done)
        invariant done + BytesOfAll(items[i..], offset) == BytesOfAll(items, old(offset))
      {
        var first := BytesOf(items[i], offset);
        PutPut(old(data), old(offset), done, first);
        assert items[i..][1..] == items[i + 1..];
        assert done + (first + BytesOfAll(items[i + 1..], offset + |first|))
            == done + first + BytesOfAll(items[i + 1..], offset + |first|);
        WriteItem(items[i]);
        done := done + first;
      }
      assert items[|items|..] == [] && done + [] == done;
    }
  }

  // ----------------------------------------------------------------------- the decoder

  class DecodeDataStream {
    const data: seq<Byte>
    var offset: nat

    constructor (data: seq<Byte>)
      ensures this.data == data && offset == 0
    {
      this.data := data;
      offset := 0;
    }

    /** `false` is the error of seeking beyond the end, which leaves the offset alone. */
    method Seek(to: nat) returns (ok: bool)
      modifies this
      ensures ok <==> to <= |data|
      ensures offset == if ok then to else old(offset)
    {
      if |data| < to { return false; }
      offset := to;
      return true;
    }

    method Align(size: nat) returns (ok: bool)
      modifies this
      ensures ok <==> size == 0 || ReadItem(data, old(offset), AlignKind(size)).Some?
      ensures offset == if ok then RoundUp(old(offset), size) else old(offset)
    {
      if size == 0 { return true; }
      ok := Seek((offset + size - 1) / size * size);
    }

    /** The offset moves before the check, also when the check then fails. */
    method ReadBytes(size: nat) returns (bytes: Option<seq<Byte>>)
      modifies this
      ensures offset == old(offset) + size
      ensures bytes == if offset <= |data| then Some(data[old(offset)..offset]) else None
    {
      var at := offset;
      offset := offset + size;
      if |data| < offset { return None; }
      return Some(data[at..offset]);
    }

    method ReadFixed(width: nat, big: bool) returns (value: Option<nat>)
      modifies this
      ensures offset == old(offset) + width
      ensures match ReadItem(data, old(offset), FixedKind(width, big))
              case None => value == None
              case Some(r) => value == Some(r.item.value) && offset == r.offset
    {
      var bytes := ReadBytes(width);
      if bytes.None? { return None; }
      value := Some(if big then FromBigEndian(bytes.value) else FromLittleEndian(bytes.value));
    }

    /** Or-ing in seven bits above those already there is adding them; what does not fit
        the type is cut off. */
    method ReadCompressed(modulus: nat) returns (value: Option<nat>)
      requires modulus >= 0x100
      modifies this
      ensures match ReadItem(data, old(offset), PackedKind(modulus))
              case None => value == None && offset == Max(old(offset), |data|) + 1
              case Some(r) => value == Some(r.item.value) && offset == r.offset
    {
      hide Decompress, Continues;
      var byte := ReadBytes(1);
      if byte.None? {
        if old(offset) <= |data| { NothingToDecompress(data, old(offset)); }
        return None;
      }
      FirstByte(data, old(offset));
      var b := byte.value[0];
      var v: nat := b % 128;
      var factor: nat := 128;
      // The whole value is what is read so far plus `factor` times what is still to come.
      ghost var read: nat, cut: nat := v, 0;
      while b >= 128
        invariant old(offset) < offset <= |data| && v < modulus && factor > 0
        invariant read == v + modulus * cut
        invariant b >= 128 ==> Continues(data, old(offset), offset, read, factor)
        invariant b < 128 ==>
          Decompress(data[old(offset)..]) == Some(Decoded(read, offset - old(offset)))
        decreases |data| - offset + (if b >= 128 then 1 else 0)
      {
        ghost var at := offset;
        byte := ReadBytes(1);
        if byte.None? {
          CodeNeverEnds(data, old(offset), read, factor);
          return None;
        }
        b := byte.value[0];
        NextByte(data, old(offset), at, read, factor);
        var more: nat := Product(factor, b % 128);
        CutOff(v, more, modulus, cut);
        read := read + more;
        cut := cut + (v + more) / modulus;
        v := (v + more) % modulus;
        factor := factor * 128;
      }
      RemainderIs(read, cut, v, modulus);
      value := Some(v);
    }
  }

  /** The code that starts at `from` has given `read` up to `at`, and goes on there. */
  ghost predicate Continues(data: seq<Byte>, from: nat, at: nat, read: nat, factor: nat)
    requires from < at <= |data|
  {
    match Decompress(data[at..])
    case None => Decompress(data[from..]) == None
    case Some(d) =>
      Decompress(data[from..]) == Some(Decoded(read + Product(factor, d.value), at - from + d.used))
  }

  lemma NothingToDecompress(data: seq<Byte>, from: nat)
    requires from == |data|
    ensures Decompress(data[from..]) == None
  {}

  lemma FirstByte(data: seq<Byte>, from: nat)
    requires from < |data|
    ensures data[from] >= 128 ==> Continues(data, from, from + 1, data[from] % 128, 128)
    ensures data[from] < 128 ==> Decompress(data[from..]) == Some(Decoded(data[from] % 128, 1))
  {
    assert data[from..][1..] == data[from + 1..];
  }

  lemma CodeNeverEnds(data: seq<Byte>, from: nat, read: nat, factor: nat)
    requires from < |data| && Continues(data, from, |data|, read, factor)
    ensures Decompress(data[from..]) == None
  {
    assert data[|data|..] == [];
  }

  function Product(a: nat, b: nat): nat { a * b }

  lemma ShiftOut(f: nat, low: nat, high: nat)
    ensures Product(f, low + 128 * high) == Product(f, low) + Product(f * 128, high)
  {}

  lemma NextByte(data: seq<Byte>, from: nat, at: nat, read: nat, factor: nat)
    requires from < at < |data| && Continues(data, from, at, read, factor)
    ensures data[at] >= 128 ==> Continues(data, from, at + 1, read + Product(factor, data[at] % 128), factor * 128)
    ensures data[at] < 128 ==>
              Decompress(data[from..]) == Some(Decoded(read + Product(factor, data[at] % 128), at + 1 - from))
  {
    assert data[at..][1..] == data[at + 1..];
    hide Product;
    if data[at] >= 128 {
      match Decompress(data[at + 1..])
      case None =>
      case Some(d) => ShiftOut(factor, data[at] % 128, d.value);
    }
  }

  lemma CutOff(v: nat, more: nat, modulus: nat, cut: nat)
    requires modulus > 0
    ensures v + modulus * cut + more == (v + more) % modulus + modulus * (cut + (v + more) / modulus)
  {
    var q := (v + more) / modulus;
    assert v + more == modulus * q + (v + more) % modulus;
    assert modulus * (cut + q) == modulus * cut + modulus * q;
  }
}
