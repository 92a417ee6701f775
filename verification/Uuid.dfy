/** UUIDv7 ids: 48 bits of time, then version, variant and random bits (section 5.7 of RFC 9562). */
module Uuid {
  import opened Numerals

  const TWO_32 := 0x1_0000_0000

  function Hex(n: nat, width: nat): string {
    Pad(Print(n, 16), width)
  }

  function ByteHex(byte: bv8): string {
    Hex(byte as nat, 2)
  }

  /** The hex text of a stretch of bytes, two digits each. */
  function HexBytes(bytes: seq<bv8>): string {
    if bytes == [] then "" else HexBytes(bytes[..|bytes| - 1]) + ByteHex(bytes[|bytes| - 1])
  }

  /** The ten random bytes with the version and the variant written over them. */
  function Marked(bytes: seq<bv8>): seq<bv8>
    requires |bytes| == 10
  {
    bytes[0 := (bytes[0] & 0x0f) | 0x70][2 := (bytes[2] & 0x3f) | 0x80]
  }

  function Uuid7(now: nat, bytes: seq<bv8>): string
    requires |bytes| == 10
  {
    var rand := Marked(bytes);
    Hex(now / 0x1_0000 % TWO_32, 8) + "-" + Hex(now % 0x1_0000, 4) + "-" +
    HexBytes(rand[0..2]) + "-" + HexBytes(rand[2..4]) + "-" + HexBytes(rand[4..10])
  }

  lemma HexBytesNext(bytes: seq<bv8>, i: nat)
    requires i < |bytes|
    ensures HexBytes(bytes[..i + 1]) == HexBytes(bytes[..i]) + ByteHex(bytes[i])
  {
    assert bytes[..i + 1][..i] == bytes[..i];
  }

  /** The helper `b`: text appended byte by byte. */
  method HexOf(rand: array<bv8>, offset: nat, length: nat) returns (out: string)
    requires offset + length <= rand.Length
    ensures out == HexBytes(rand[offset..offset + length])
  {
    ghost var bytes := rand[offset..offset + length];
    out := "";
    for i := 0 to length
      invariant out == HexBytes(bytes[..i])
    {
      HexBytesNext(bytes, i);
      out := out + ByteHex(rand[offset + i]);
    }
    assert bytes[..length] == bytes;
  }

  /** The version and variant bits are written over the buffer in place. */
  method Stamp(rand: array<bv8>)
    requires rand.Length == 10
    modifies rand
    ensures rand[..] == Marked(old(rand[..]))
  {
    rand[0] := (rand[0] & 0x0f) | 0x70;
    rand[2] := (rand[2] & 0x3f) | 0x80;
  }

  method Generate(now: nat, rand: array<bv8>) returns (id: string)
    requires rand.Length == 10
    modifies rand
    ensures rand[..] == Marked(old(rand[..]))
    ensures id == Uuid7(now, old(rand[..]))
  {
    Stamp(rand);
    ghost var marked := rand[..];
    var b0 := HexOf(rand, 0, 2);
    var b2 := HexOf(rand, 2, 2);
    var b4 := HexOf(rand, 4, 6);
    assert rand[0..2] == marked[0..2] && rand[2..4] == marked[2..4] && rand[4..10] == marked[4..10];
    id := Hex(now / 0x1_0000 % TWO_32, 8) + "-" + Hex(now % 0x1_0000, 4) + "-" + b0 + "-" + b2 + "-" + b4;
  }

  lemma HexWidths()
    ensures Power(16, 2) == 0x100 && Power(16, 4) == 0x1_0000 && Power(16, 8) == TWO_32
  {
    assert Power(16, 1) == 16 && Power(16, 3) == 0x1000;
    assert Power(16, 5) == 0x10_0000 && Power(16, 6) == 0x100_0000 && Power(16, 7) == 0x1000_0000;
  }

  lemma {:induction false} HexBytesLength(bytes: seq<bv8>)
    ensures |HexBytes(bytes)| == 2 * |bytes|
  {
    if bytes != [] {
      HexWidths();
      PadRoundTrip(bytes[|bytes| - 1] as nat, 16, 2);
      HexBytesLength(bytes[..|bytes| - 1]);
    }
  }

  ghost predicate Joined(id: string, a: string, b: string, c: string, d: string, e: string) {
    id == a + "-" + b + "-" + c + "-" + d + "-" + e
  }

  lemma Cuts(id: string, a: string, b: string, c: string, d: string, e: string)
    requires Joined(id, a, b, c, d, e)
    requires |a| == 8 && |b| == |c| == |d| == 4 && |e| == 12
    ensures |id| == 36 && id[8] == id[13] == id[18] == id[23] == '-'
    ensures id[..8] == a && id[9..13] == b && id[14..18] == c && id[19..23] == d && id[24..] == e
  {
  }

  /** Where the fields sit: 36 characters, dashes, the two timestamp fields and the random ones. */
  lemma Layout(now: nat, bytes: seq<bv8>)
    requires |bytes| == 10
    ensures var id := Uuid7(now, bytes);
            && |id| == 36 && id[8] == id[13] == id[18] == id[23] == '-'
            && id[..8] == Hex(now / 0x1_0000 % TWO_32, 8) && id[9..13] == Hex(now % 0x1_0000, 4)
            && id[14..18] == HexBytes(Marked(bytes)[0..2]) && id[19..23] == HexBytes(Marked(bytes)[2..4])
            && id[24..] == HexBytes(Marked(bytes)[4..10])
  {
    HexWidths();
    PadRoundTrip(now / 0x1_0000 % TWO_32, 16, 8);
    PadRoundTrip(now % 0x1_0000, 16, 4);
    var rand := Marked(bytes);
    HexBytesLength(rand[0..2]);
    HexBytesLength(rand[2..4]);
    HexBytesLength(rand[4..10]);
    Cuts(Uuid7(now, bytes), Hex(now / 0x1_0000 % TWO_32, 8), Hex(now % 0x1_0000, 4),
         HexBytes(rand[0..2]), HexBytes(rand[2..4]), HexBytes(rand[4..10]));
  }

  /** The first twelve hex digits parse back to the timestamp. */
  lemma TimestampRoundTrip(now: nat, bytes: seq<bv8>)
    requires |bytes| == 10 && now < 0x1_0000_0000_0000
    ensures |Uuid7(now, bytes)| == 36
    ensures Parse(Uuid7(now, bytes)[..8], 16) * 0x1_0000 + Parse(Uuid7(now, bytes)[9..13], 16) == now
  {
    Layout(now, bytes);
    Halves(now);
    PadRoundTrip(now / 0x1_0000, 16, 8);
    PadRoundTrip(now % 0x1_0000, 16, 4);
    assert Parse(Uuid7(now, bytes)[..8], 16) == now / 0x1_0000;
    assert Parse(Uuid7(now, bytes)[9..13], 16) == now % 0x1_0000;
  }

  lemma FirstDigit(n: nat)
    requires 16 <= n < 256
    ensures Hex(n, 2) == [DIGITS[n / 16], DIGITS[n % 16]]
  {
    Division(n, 16);
    assert Print(n / 16, 16) == [DIGITS[n / 16]];
  }

  /** The marks are the high four bits of one byte and the high two of another; the 74 other bits are kept. */
  lemma RandomBitsKept(bytes: seq<bv8>)
    requires |bytes| == 10
    ensures var rand := Marked(bytes);
            && |rand| == 10 && rand[0] & 0x0f == bytes[0] & 0x0f && rand[2] & 0x3f == bytes[2] & 0x3f
            && rand[0] & 0xf0 == 0x70 && rand[2] & 0xc0 == 0x80
            && forall i :: 0 <= i < 10 && i != 0 && i != 2 ==> rand[i] == bytes[i]
  {
  }

  lemma {:induction false} HexBytesInjective(a: seq<bv8>, b: seq<bv8>)
    requires |a| == |b| && HexBytes(a) == HexBytes(b)
    ensures a == b
  {
    if a != [] {
      var n := |a| - 1;
      HexBytesLength(a[..n]);
      HexBytesLength(b[..n]);
      assert HexBytes(a) == HexBytes(a[..n]) + ByteHex(a[n]) && HexBytes(b) == HexBytes(b[..n]) + ByteHex(b[n]);
      assert HexBytes(a)[..2 * n] == HexBytes(a[..n]) && HexBytes(b)[..2 * n] == HexBytes(b[..n]);
      assert HexBytes(a)[2 * n..] == ByteHex(a[n]) && HexBytes(b)[2 * n..] == ByteHex(b[n]);
      ByteHexInjective(a[n], b[n]);
      HexBytesInjective(a[..n], b[..n]);
      assert a == a[..n] + [a[n]] && b == b[..n] + [b[n]];
    }
  }

  lemma HexInjective(m: nat, n: nat, width: nat)
    requires 1 <= width && m < Power(16, width) && n < Power(16, width) && Hex(m, width) == Hex(n, width)
    ensures m == n
  {
    PadRoundTrip(m, 16, width);
    PadRoundTrip(n, 16, width);
  }

  lemma ByteHexInjective(a: bv8, b: bv8)
    requires ByteHex(a) == ByteHex(b)
    ensures a == b
  {
    HexWidths();
    var m: nat, n: nat := a as nat, b as nat;
    HexInjective(m, n, 2);
    SameByte(a, b);
  }

  lemma SameByte(a: bv8, b: bv8)
    requires a as nat == b as nat
    ensures a == b
  {
    assert a as nat as bv8 == b as nat as bv8;
  }

  lemma MarkedAgree(bytes: seq<bv8>, others: seq<bv8>)
    requires |bytes| == 10 && |others| == 10
    ensures Marked(bytes) == Marked(others) <==>
            && bytes[0] & 0x0f == others[0] & 0x0f && bytes[2] & 0x3f == others[2] & 0x3f
            && bytes[1] == others[1] && bytes[3..] == others[3..]
  {
    RandomBitsKept(bytes);
    RandomBitsKept(others);
    var a, b := Marked(bytes), Marked(others);
    assert a[1] == bytes[1] && b[1] == others[1] && a[3..] == bytes[3..] && b[3..] == others[3..];
    HighBits(a[0], b[0], a[2], b[2]);
    assert a == [a[0], a[1], a[2]] + a[3..] && b == [b[0], b[1], b[2]] + b[3..];
  }

  lemma HighBits(a: bv8, b: bv8, c: bv8, d: bv8)
    requires a & 0xf0 == b & 0xf0 && c & 0xc0 == d & 0xc0
    ensures a == b <==> a & 0x0f == b & 0x0f
    ensures c == d <==> c & 0x3f == d & 0x3f
  {
  }

  /** Two ids of one millisecond are equal exactly when all 74 random bits are: none of them is lost. */
  lemma SameIdExactlyWhen(now: nat, bytes: seq<bv8>, others: seq<bv8>)
    requires |bytes| == 10 && |others| == 10
    ensures Uuid7(now, bytes) == Uuid7(now, others) <==>
            && bytes[0] & 0x0f == others[0] & 0x0f && bytes[2] & 0x3f == others[2] & 0x3f
            && bytes[1] == others[1] && bytes[3..] == others[3..]
  {
    MarkedAgree(bytes, others);
    if Uuid7(now, bytes) == Uuid7(now, others) {
      Layout(now, bytes);
      Layout(now, others);
      FieldsInjective(Marked(bytes), Marked(others));
    }
  }

  lemma FieldsInjective(a: seq<bv8>, b: seq<bv8>)
    requires |a| == 10 && |b| == 10 && HexBytes(a[0..2]) == HexBytes(b[0..2])
    requires HexBytes(a[2..4]) == HexBytes(b[2..4]) && HexBytes(a[4..10]) == HexBytes(b[4..10])
    ensures a == b
  {
    HexBytesInjective(a[0..2], b[0..2]);
    HexBytesInjective(a[2..4], b[2..4]);
    HexBytesInjective(a[4..10], b[4..10]);
    assert a == a[0..2] + a[2..4] + a[4..10] && b == b[0..2] + b[2..4] + b[4..10];
  }

  lemma MarkedBytes(bytes: seq<bv8>)
    requires |bytes| == 10
    ensures 0x70 <= Marked(bytes)[0] as nat <= 0x7f && 0x80 <= Marked(bytes)[2] as nat <= 0xbf
  {
    var v, r := (bytes[0] & 0x0f) | 0x70, (bytes[2] & 0x3f) | 0x80;
    assert 0x70 <= v <= 0x7f && 0x80 <= r <= 0xbf;
  }

  lemma FirstOfTwo(a: bv8, b: bv8)
    requires a as nat >= 16
    ensures HexBytes([a, b])[0] == DIGITS[a as nat / 16]
  {
    FirstDigit(a as nat);
    assert [a, b][..1] == [a] && [a][..0] == [];
    assert HexBytes([a]) == HexBytes([]) + Hex(a as nat, 2);
    HexBytesLength([a]);
    assert HexBytes([a, b]) == HexBytes([a]) + Hex(b as nat, 2);
  }

  /** Version 7, and variant bits 10: the digit after the third dash is one of 8, 9, a and b. */
  lemma VersionAndVariant(now: nat, bytes: seq<bv8>)
    requires |bytes| == 10
    ensures var id := Uuid7(now, bytes);
            |id| == 36 && id[14] == '7' && id[19] in "89ab"
  {
    Layout(now, bytes);
    MarkedBytes(bytes);
    var rand := Marked(bytes);
    assert rand[0..2] == [rand[0], rand[1]] && rand[2..4] == [rand[2], rand[3]];
    FirstOfTwo(rand[0], rand[1]);
    FirstOfTwo(rand[2], rand[3]);
    assert rand[0] as nat / 16 == 7;
    var digit := rand[2] as nat / 16;
    assert digit == 8 || digit == 9 || digit == 10 || digit == 11;
    assert Uuid7(now, bytes)[14] == Uuid7(now, bytes)[14..18][0];
    assert Uuid7(now, bytes)[19] == Uuid7(now, bytes)[19..23][0];
  }

  /** Lexicographic order of strings, by code unit. */
  ghost predicate Less(s: string, t: string) {
    exists k: nat :: LessAt(s, t, k)
  }

  ghost predicate LessAt(s: string, t: string, k: nat) {
    k <= |s| && k < |t| && s[..k] == t[..k] && (k == |s| || s[k] < t[k])
  }

  lemma LessPrefix(s: string, t: string, u: string, v: string)
    requires |s| == |t| && Less(s, t)
    ensures Less(s + u, t + v)
  {
    var k: nat :| LessAt(s, t, k);
    assert k < |s|;
    assert (s + u)[..k] == s[..k] && (t + v)[..k] == t[..k];
    assert LessAt(s + u, t + v, k);
  }

  lemma LessAfter(p: string, s: string, t: string)
    requires Less(s, t)
    ensures Less(p + s, p + t)
  {
    var k: nat :| LessAt(s, t, k);
    assert (p + s)[..|p| + k] == p + s[..k] && (p + t)[..|p| + k] == p + t[..k];
    assert LessAt(p + s, p + t, |p| + k);
  }

  /** Hex numerals of one width are ordered as strings the way their numbers are. */
  lemma {:induction false} HexOrder(m: nat, n: nat, width: nat)
    requires 1 <= width && m < n < Power(16, width)
    ensures Less(Hex(m, width), Hex(n, width))
  {
    if width == 1 {
      OneDigitOrder(m, n);
    } else {
      var p, q := m / 16, n / 16;
      QuotientsFit(m, n, width);
      if p < q {
        HexOrder(p, q, width - 1);
        SameWidth(p, q, width - 1);
      }
      LastDigitOrder(m, n, width);
    }
  }

  lemma QuotientsFit(m: nat, n: nat, width: nat)
    requires 2 <= width && m < n < Power(16, width)
    ensures m / 16 <= n / 16 < Power(16, width - 1)
  {
    assert Power(16, width) == 16 * Power(16, width - 1);
  }

  lemma OneDigitOrder(m: nat, n: nat)
    requires m < n < Power(16, 1)
    ensures Less(Hex(m, 1), Hex(n, 1))
  {
    assert Power(16, 0) == 1;
    DigitOrder(m, n);
    assert Print(m, 16) == [DIGITS[m]] && Print(n, 16) == [DIGITS[n]];
  }

  lemma SameWidth(m: nat, n: nat, width: nat)
    requires 1 <= width && m < Power(16, width) && n < Power(16, width)
    ensures |Hex(m, width)| == |Hex(n, width)|
  {
    PadRoundTrip(m, 16, width);
    PadRoundTrip(n, 16, width);
  }

  /** `s` is `p` followed by one digit. */
  ghost predicate Snoc(s: string, p: string, d: nat)
    requires d < 16
  {
    s == p + [DIGITS[d]]
  }

  lemma HexSnoc(n: nat, width: nat)
    requires width >= 2
    ensures Snoc(Hex(n, width), Hex(n / 16, width - 1), n % 16)
  {
    PadSnoc(n, n / 16, n % 16, 16, width);
  }

  lemma LastDigitOrder(m: nat, n: nat, width: nat)
    requires width >= 2
    requires var p, q := Hex(m / 16, width - 1), Hex(n / 16, width - 1);
             (|p| == |q| && Less(p, q)) || (p == q && m % 16 < n % 16)
    ensures Less(Hex(m, width), Hex(n, width))
  {
    HexSnoc(m, width);
    HexSnoc(n, width);
    SnocOrder(Hex(m / 16, width - 1), Hex(n / 16, width - 1), m % 16, n % 16);
  }

  lemma SnocOrder(p: string, q: string, c: nat, d: nat)
    requires c < 16 && d < 16
    requires (|p| == |q| && Less(p, q)) || (p == q && c < d)
    ensures Less(p + [DIGITS[c]], q + [DIGITS[d]])
  {
    if |p| == |q| && Less(p, q) {
      LessPrefix(p, q, [DIGITS[c]], [DIGITS[d]]);
    } else {
      DigitOrder(c, d);
      LessAfter(p, [DIGITS[c]], [DIGITS[d]]);
    }
  }

  lemma QuotientsInOrder(m: nat, n: nat, base: nat)
    requires base >= 2 && m < n
    ensures 0 <= m / base && 0 <= m % base < base && 0 <= n % base < base
    ensures m / base < n / base || (m / base == n / base && m % base < n % base)
  {
    Division(m, base);
    Division(n, base);
    MultiplyMonotone(n / base + 1, m / base, base);
    assert (n / base + 1) * base == n / base * base + base;
  }

  lemma DigitOrder(c: nat, d: nat)
    requires c < 16 && d < 16
    ensures c < d ==> DIGITS[c] < DIGITS[d] && Less([DIGITS[c]], [DIGITS[d]])
  {
    if c < d {
      assert LessAt([DIGITS[c]], [DIGITS[d]], 0);
    }
  }

  lemma LessField(id: string, next: string, from: nat, to: nat)
    requires from <= to <= |id| && to <= |next| && id[..from] == next[..from]
    requires Less(id[from..to], next[from..to])
    ensures Less(id, next)
  {
    LessPrefix(id[from..to], next[from..to], id[to..], next[to..]);
    LessAfter(id[..from], id[from..to] + id[to..], next[from..to] + next[to..]);
    assert id == id[..from] + (id[from..to] + id[to..]);
    assert next == next[..from] + (next[from..to] + next[to..]);
  }

  lemma Halves(now: nat)
    requires now < 0x1_0000_0000_0000
    ensures now / 0x1_0000 % TWO_32 == now / 0x1_0000 < Power(16, 8)
    ensures now % 0x1_0000 < Power(16, 4) && now == now / 0x1_0000 * 0x1_0000 + now % 0x1_0000
  {
    HexWidths();
  }

  lemma LessIsStrict(s: string, t: string)
    requires Less(s, t)
    ensures !Less(t, s)
  {
    var k: nat :| LessAt(s, t, k);
    assert forall i: nat :: i < k ==> s[i] == s[..k][i] == t[..k][i] == t[i];
    forall j: nat ensures !LessAt(t, s, j) {
      assert j < |s| && j <= |t| && k < j ==> t[..j][k] == t[k] && s[..j][k] == s[k];
    }
  }

  /** A smaller timestamp gives a smaller string, whatever the random bytes are. */
  lemma EarlierSortsFirst(now: nat, bytes: seq<bv8>, later: nat, others: seq<bv8>)
    requires |bytes| == 10 && |others| == 10
    requires now < later < 0x1_0000_0000_0000
    ensures Less(Uuid7(now, bytes), Uuid7(later, others))
  {
    Layout(now, bytes);
    Layout(later, others);
    var id, next := Uuid7(now, bytes), Uuid7(later, others);
    Halves(now);
    Halves(later);
    QuotientsInOrder(now, later, 0x1_0000);
    if now / 0x1_0000 < later / 0x1_0000 {
      HexOrder(now / 0x1_0000, later / 0x1_0000, 8);
      LessField(id, next, 0, 8);
    } else {
      HexOrder(now % 0x1_0000, later % 0x1_0000, 4);
      assert id[..9] == id[..8] + ['-'] && next[..9] == next[..8] + ['-'];
      LessField(id, next, 9, 13);
    }
  }

  /** So ids of different milliseconds are different, and their order as strings is their order in time. */
  lemma SortsByTime(now: nat, bytes: seq<bv8>, later: nat, others: seq<bv8>)
    requires |bytes| == 10 && |others| == 10
    requires now < 0x1_0000_0000_0000 && later < 0x1_0000_0000_0000 && now != later
    ensures Less(Uuid7(now, bytes), Uuid7(later, others)) <==> now < later
    ensures Uuid7(now, bytes) != Uuid7(later, others)
  {
    if now < later {
      EarlierSortsFirst(now, bytes, later, others);
      LessIsStrict(Uuid7(now, bytes), Uuid7(later, others));
    } else {
      EarlierSortsFirst(later, others, now, bytes);
      LessIsStrict(Uuid7(later, others), Uuid7(now, bytes));
    }
  }
}
