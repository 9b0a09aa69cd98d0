/** Image entries, the key under which they are stored, and the bincode 1.3 record format:
    little-endian fixed-width integers, 64-bit length prefixes, no prefix for the digest, and
    trailing bytes accepted by the decoder. */
module Codec {
  import opened Machine
  import opened Utf8

  type Buffer = s: seq<byte> | |s| < TWO_64
  type Text = s: Buffer | ValidUtf8(s)
  type Digest = s: seq<byte> | |s| == 32 witness seq(32, _ => 0)
  type Hash = seq<byte> -> Digest

  datatype Entry = Entry(saveTime: u128, checksum: Digest, mime: Text, bytesLen: u64, bytes: Buffer)

  /** `clock` is the time since the epoch, None when the system clock is before it. */
  function NewEntry(sha: Hash, bytes: Buffer, mime: Text, clock: Option<u128>): (e: Entry) {
    Entry(match clock case Some(t) => t case None => 0, sha(bytes), mime, |bytes|, bytes)
  }

  /** The entry whose encoding goes to the metadata family. */
  function Blank(e: Entry): (b: Entry) {
    e.(bytes := [])
  }

  // ---------- image keys ----------

  datatype ImageKey = ImageKey(chapter: Text, image: Text, saver: bool)

  function Preimage(key: ImageKey): seq<byte> {
    [if key.saver then 1 else 0] + key.chapter + key.image
  }

  function BKey(sha: Hash, key: ImageKey): Digest {
    sha(Preimage(key))
  }

  /** Two keys share a slot exactly when their flags match and their texts concatenate to the
      same bytes, provided the hash does not collide on these two inputs. */
  lemma SharedSlot(sha: Hash, a: ImageKey, b: ImageKey)
    requires sha(Preimage(a)) == sha(Preimage(b)) ==> Preimage(a) == Preimage(b)
    ensures BKey(sha, a) == BKey(sha, b) <==> a.saver == b.saver && a.chapter + a.image == b.chapter + b.image
  {
    forall k: ImageKey ensures Preimage(k)[0] == (if k.saver then 1 else 0) && Preimage(k)[1..] == k.chapter + k.image {
    }
    if a.saver == b.saver && a.chapter + a.image == b.chapter + b.image {
      assert Preimage(a) == [if a.saver then 1 else 0] + (a.chapter + a.image);
      assert Preimage(b) == [if b.saver then 1 else 0] + (b.chapter + b.image);
    }
  }

  /** The chapter and image names are not separated: distinct images can share a slot under
      every hash. */
  lemma SlotIsAmbiguous(sha: Hash) returns (a: ImageKey, b: ImageKey)
    ensures a != b && a.saver == b.saver && BKey(sha, a) == BKey(sha, b)
    ensures a.chapter != [] && a.image != [] && b.chapter != [] && b.image != []
  {
    var x: Text := [97];
    assert ValidUtf8([97, 97][1..]);
    var xx: Text := [97, 97];
    a, b := ImageKey(x, xx, false), ImageKey(xx, x, false);
    assert Preimage(a) == [0, 97, 97, 97] == Preimage(b);
  }

  // ---------- integers ----------

  function Pow256(w: nat): (p: nat)
    ensures p > 0
  {
    if w == 0 then 1 else 256 * Pow256(w - 1)
  }

  function ToLE(n: nat, w: nat): seq<byte> {
    if w == 0 then [] else [n % 256] + ToLE(n / 256, w - 1)
  }

  function FromLE(s: seq<byte>): nat {
    if s == [] then 0 else s[0] + 256 * FromLE(s[1..])
  }

  lemma {:induction false} WidthToLE(n: nat, w: nat)
    ensures |ToLE(n, w)| == w
  {
    if w > 0 {
      WidthToLE(n / 256, w - 1);
    }
  }

  lemma {:induction false} BoundFromLE(s: seq<byte>)
    ensures FromLE(s) < Pow256(|s|)
  {
    if s != [] {
      BoundFromLE(s[1..]);
    }
  }

  lemma {:induction false} FromToLE(n: nat, w: nat)
    requires n < Pow256(w)
    ensures FromLE(ToLE(n, w)) == n
  {
    if w > 0 {
      FromToLE(n / 256, w - 1);
    }
  }

  lemma {:induction false} ToFromLE(s: seq<byte>)
    ensures ToLE(FromLE(s), |s|) == s
  {
    if s != [] {
      ToFromLE(s[1..]);
      assert FromLE(s) / 256 == FromLE(s[1..]);
    }
  }

  lemma Widths()
    ensures Pow256(8) == TWO_64 && Pow256(16) == TWO_128
  {
    assert Pow256(4) == 0x1_0000_0000;
    assert Pow256(8) == 0x1_0000_0000 * 0x1_0000_0000;
    assert Pow256(12) == Pow256(8) * 0x1_0000_0000;
    assert Pow256(16) == Pow256(12) * 0x1_0000_0000;
  }

  // ---------- records ----------

  function EncodeBuffer(b: Buffer): seq<byte> {
    ToLE(|b|, 8) + b
  }

  function Encode(e: Entry): seq<byte> {
    ToLE(e.saveTime, 16) + (e.checksum + (EncodeBuffer(e.mime) + (ToLE(e.bytesLen, 8) + EncodeBuffer(e.bytes))))
  }

  /** A reader yields what it read and the bytes it left. */
  datatype Read<+T> = Fail | Got(value: T, rest: seq<byte>) {
    predicate IsFailure() { Fail? }
    function PropagateFailure<U>(): Read<U> requires Fail? { Fail }
    function Extract(): (T, seq<byte>) requires Got? { (value, rest) }
  }

  function Take(s: seq<byte>, n: nat): Read<seq<byte>> {
    if n <= |s| then Got(s[..n], s[n..]) else Fail
  }

  function TakeU64(s: seq<byte>): Read<u64> {
    var (b, rest) :- Take(s, 8);
    Widths();
    BoundFromLE(b);
    Got(FromLE(b), rest)
  }

  function TakeBuffer(s: seq<byte>): Read<Buffer> {
    var (n, rest) :- TakeU64(s);
    Take(rest, n)
  }

  function Parse(s: seq<byte>): Read<Entry> {
    var (t, s1) :- Take(s, 16);
    var (sum, s2) :- Take(s1, 32);
    var (mime, s3) :- TakeBuffer(s2);
    if !ValidUtf8(mime) then Fail
    else
      var (len, s4) :- TakeU64(s3);
      var (bytes, s5) :- TakeBuffer(s4);
      Widths();
      BoundFromLE(t);
      Got(Entry(FromLE(t), sum, mime, len, bytes), s5)
  }

  function Decode(s: seq<byte>): Option<Entry> {
    match Parse(s)
    case Fail => None
    case Got(e, _) => Some(e)
  }

  lemma EncodeAssociates(e: Entry, tail: seq<byte>)
    ensures Encode(e) + tail ==
            ToLE(e.saveTime, 16) +
            (e.checksum + (EncodeBuffer(e.mime) + (ToLE(e.bytesLen, 8) + (EncodeBuffer(e.bytes) + tail))))
  {
  }

  lemma TakeU64Sound(s: seq<byte>)
    ensures var r := TakeU64(s); r.Got? ==> ToLE(r.value, 8) + r.rest == s
  {
    if 8 <= |s| {
      ToFromLE(s[..8]);
    }
  }

  lemma TakeBufferSound(s: seq<byte>)
    ensures var r := TakeBuffer(s); r.Got? ==> EncodeBuffer(r.value) + r.rest == s
  {
    TakeU64Sound(s);
    var r := TakeBuffer(s);
    if r.Got? {
      var n := TakeU64(s);
      assert r.value + r.rest == n.rest;
      assert ToLE(n.value, 8) + (r.value + r.rest) == (ToLE(n.value, 8) + r.value) + r.rest;
    }
  }

  lemma ParseSound(s: seq<byte>)
    ensures var r := Parse(s); r.Got? ==> Encode(r.value) + r.rest == s
  {
    var r := Parse(s);
    if r.Got? {
      var s2 := s[16..][32..];
      ToFromLE(s[..16]);
      TakeBufferSound(s2);
      var s3 := TakeBuffer(s2).rest;
      TakeU64Sound(s3);
      TakeBufferSound(TakeU64(s3).rest);
      EncodeAssociates(r.value, r.rest);
      assert s == s[..16] + (s[16..][..32] + s2);
    }
  }

  lemma TakeFront(a: seq<byte>, rest: seq<byte>)
    ensures Take(a + rest, |a|) == Got(a, rest)
  {
  }

  lemma TakeU64Front(n: u64, rest: seq<byte>)
    ensures TakeU64(ToLE(n, 8) + rest) == Got(n, rest)
  {
    Widths();
    WidthToLE(n, 8);
    TakeFront(ToLE(n, 8), rest);
    FromToLE(n, 8);
  }

  lemma TakeBufferFront(b: Buffer, rest: seq<byte>)
    ensures TakeBuffer(EncodeBuffer(b) + rest) == Got(b, rest)
  {
    assert EncodeBuffer(b) + rest == ToLE(|b|, 8) + (b + rest);
    TakeU64Front(|b|, b + rest);
    TakeFront(b, rest);
  }

  lemma ParseEncoded(e: Entry, tail: seq<byte>)
    ensures Parse(Encode(e) + tail) == Got(e, tail)
  {
    EncodeAssociates(e, tail);
    var s5 := EncodeBuffer(e.bytes) + tail;
    var s4 := ToLE(e.bytesLen, 8) + s5;
    var s3 := EncodeBuffer(e.mime) + s4;
    var s2 := e.checksum + s3;
    Widths();
    WidthToLE(e.saveTime, 16);
    FromToLE(e.saveTime, 16);
    TakeFront(ToLE(e.saveTime, 16), s2);
    TakeFront(e.checksum, s3);
    TakeBufferFront(e.mime, s4);
    TakeU64Front(e.bytesLen, s5);
    TakeBufferFront(e.bytes, tail);
  }

  /** Decoding undoes encoding, whatever follows the record. */
  lemma DecodeEncode(e: Entry, tail: seq<byte>)
    ensures Decode(Encode(e) + tail) == Some(e)
    ensures Decode(Encode(e)) == Some(e)
  {
    ParseEncoded(e, tail);
    ParseEncoded(e, []);
    assert Encode(e) + [] == Encode(e);
  }

  /** Whatever the decoder accepts starts with the encoding of the result, and that prefix is
      the only one: two entries cannot both start one input. */
  lemma DecodeIsCanonical(s: seq<byte>, e: Entry)
    ensures Decode(s) == Some(e) <==> Encode(e) <= s
  {
    ParseSound(s);
    if Encode(e) <= s {
      DecodeEncode(e, s[|Encode(e)|..]);
      assert s == Encode(e) + s[|Encode(e)|..];
    }
  }

  /** A record cut short anywhere is rejected. */
  lemma TruncatedIsRejected(e: Entry, n: nat)
    requires n < |Encode(e)|
    ensures Decode(Encode(e)[..n]) == None
  {
    var s := Encode(e)[..n];
    if Decode(s).Some? {
      var f := Decode(s).value;
      DecodeIsCanonical(s, f);
      DecodeIsCanonical(Encode(e), f);
      DecodeEncode(e, []);
    }
  }

  /** Blanking the bytes before encoding and putting them back after decoding loses nothing. */
  lemma BlankRestore(e: Entry)
    ensures Decode(Encode(Blank(e))).Some?
    ensures Decode(Encode(Blank(e))).value.(bytes := e.bytes) == e
    ensures |Encode(Blank(e))| == 72 + |e.mime|
  {
    RecordLayout(Blank(e));
    DecodeEncode(Blank(e), []);
  }

  // ---------- the layout of a record ----------

  lemma DivideTwice(n: nat, p: nat)
    requires p > 0
    ensures n / 256 / p == n / (256 * p)
  {
    var a, q := n / 256, n / 256 / p;
    var r := 256 * (a - q * p) + n % 256;
    assert a - q * p == a % p;
    assert 0 <= r < 256 * p;
    assert n == (256 * p) * q + r;
    Quotient(n, 256 * p, q, r);
  }

  lemma Quotient(n: nat, d: nat, q: nat, r: nat)
    requires r < d && n == d * q + r
    ensures n / d == q
  {
    var q', r' := n / d, n % d;
    assert n == d * q' + r';
    if q' > q {
      Multiples(d, q, q');
    } else if q' < q {
      Multiples(d, q', q);
    }
  }

  lemma {:induction false} Multiples(d: nat, x: nat, y: nat)
    requires x < y
    ensures d * x + d <= d * y
  {
    assert d * (y - 1) + d == d * y;
    if x < y - 1 {
      Multiples(d, x, y - 1);
    }
  }

  /** The least significant byte comes first. */
  lemma {:induction false} LittleEndian(n: nat, w: nat, i: nat)
    requires i < w
    ensures |ToLE(n, w)| == w && ToLE(n, w)[i] == n / Pow256(i) % 256
  {
    WidthToLE(n, w);
    if i > 0 {
      LittleEndian(n / 256, w - 1, i - 1);
      DivideTwice(n, Pow256(i - 1));
    }
  }

  /** `s` holds `n` in `w` bytes from place `at`, the least significant first. */
  ghost predicate HoldsLE(s: seq<byte>, at: nat, n: nat, w: nat) {
    at + w <= |s| && forall i :: 0 <= i < w ==> s[at + i] == n / Pow256(i) % 256
  }

  lemma IntegerAt(s: seq<byte>, at: nat, n: nat, w: nat)
    requires at + w <= |s| && s[at..at + w] == ToLE(n, w)
    ensures HoldsLE(s, at, n, w)
  {
    forall i | 0 <= i < w ensures s[at + i] == n / Pow256(i) % 256 {
      LittleEndian(n, w, i);
      assert s[at..at + w][i] == s[at + i];
    }
  }

  /** Where each field of an entry is in its record. */
  lemma RecordLayout(e: Entry)
    ensures var s, m := Encode(e), |e.mime|;
      && |s| == 72 + m + |e.bytes|
      && HoldsLE(s, 0, e.saveTime, 16)
      && s[16..48] == e.checksum
      && HoldsLE(s, 48, m, 8)
      && s[56..56 + m] == e.mime
      && HoldsLE(s, 56 + m, e.bytesLen, 8)
      && HoldsLE(s, 64 + m, |e.bytes|, 8)
      && s[72 + m..] == e.bytes
  {
    var t, n, l, k := ToLE(e.saveTime, 16), ToLE(|e.mime|, 8), ToLE(e.bytesLen, 8), ToLE(|e.bytes|, 8);
    WidthToLE(e.saveTime, 16);
    WidthToLE(|e.mime|, 8);
    WidthToLE(e.bytesLen, 8);
    WidthToLE(|e.bytes|, 8);
    Slices(t, e.checksum, n, e.mime, l, k, e.bytes);
    assert Encode(e) == Joined(t, e.checksum, n, e.mime, l, k, e.bytes);
    IntegerAt(Encode(e), 0, e.saveTime, 16);
    IntegerAt(Encode(e), 48, |e.mime|, 8);
    IntegerAt(Encode(e), 56 + |e.mime|, e.bytesLen, 8);
    IntegerAt(Encode(e), 64 + |e.mime|, |e.bytes|, 8);
  }

  function Joined(
    a: seq<byte>, b: seq<byte>, c: seq<byte>, d: seq<byte>, e: seq<byte>, f: seq<byte>, g: seq<byte>): seq<byte> {
    a + (b + ((c + d) + (e + (f + g))))
  }

  lemma Slices(a: seq<byte>, b: seq<byte>, c: seq<byte>, d: seq<byte>, e: seq<byte>, f: seq<byte>, g: seq<byte>)
    requires |a| == 16 && |b| == 32 && |c| == 8 && |e| == 8 && |f| == 8
    ensures var s, m := Joined(a, b, c, d, e, f, g), |d|;
      && |s| == 72 + m + |g| && s[..16] == a && s[16..48] == b && s[48..56] == c && s[56..56 + m] == d
      && s[56 + m..64 + m] == e && s[64 + m..72 + m] == f && s[72 + m..] == g
  {
  }

  /** The key of an image is the hash of its flag, its chapter and its name, in this order. */
  lemma KeyLayout(sha: Hash, key: ImageKey) returns (hashed: seq<byte>)
    ensures BKey(sha, key) == sha(hashed) && |hashed| == 1 + |key.chapter| + |key.image|
    ensures hashed[0] == (if key.saver then 1 else 0)
    ensures hashed[1..1 + |key.chapter|] == key.chapter && hashed[1 + |key.chapter|..] == key.image
  {
    hashed := Preimage(key);
  }
}
