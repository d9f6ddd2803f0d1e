/** Byte-level framing of the messages that are hashed into the ledger. */
module Framing {

  type Byte = x: int | 0 <= x < 256

  type Bytes = seq<Byte>

  function Ascii(s: string): (r: Bytes)
    ensures |r| == |s|
  {
    seq(|s|, i requires 0 <= i < |s| => s[i] as int % 256)
  }

  function Pow256(k: nat): (p: nat)
    ensures p > 0
  {
    if k == 0 then 1 else 256 * Pow256(k - 1)
  }

  /** The fixed-width big-endian encoding that struct.pack produces. */
  function BigEndian(n: nat, width: nat): (r: Bytes)
    ensures |r| == width
  {
    if width == 0 then [] else BigEndian(n / 256, width - 1) + [n % 256]
  }

  lemma {:induction false} BigEndianInjective(a: nat, b: nat, width: nat)
    requires a < Pow256(width) && b < Pow256(width)
    requires BigEndian(a, width) == BigEndian(b, width)
    ensures a == b
  {
    if width > 0 {
      var x, y := BigEndian(a, width), BigEndian(b, width);
      assert x[width - 1] == a % 256 && y[width - 1] == b % 256;
      assert x[..width - 1] == BigEndian(a / 256, width - 1);
      assert y[..width - 1] == BigEndian(b / 256, width - 1);
      BigEndianInjective(a / 256, b / 256, width - 1);
    }
  }

  /** A field preceded by its length in four bytes. */
  function Framed(field: Bytes): (r: Bytes)
    requires |field| < Pow256(4)
    ensures |r| == |field| + 4
  {
    BigEndian(|field|, 4) + field
  }

  /** A framed field can be read back off the front of a message. */
  lemma FramedInjective(a: Bytes, x: Bytes, b: Bytes, y: Bytes)
    requires |a| < Pow256(4) && |b| < Pow256(4)
    requires Framed(a) + x == Framed(b) + y
    ensures a == b && x == y
  {
    var m := Framed(a) + x;
    assert m == Framed(b) + y;
    assert m[..4] == BigEndian(|a|, 4);
    assert (Framed(b) + y)[..4] == BigEndian(|b|, 4);
    BigEndianInjective(|a|, |b|, 4);
    assert m[4..4 + |a|] == a && (Framed(b) + y)[4..4 + |b|] == b;
    assert m[4 + |a|..] == x && (Framed(b) + y)[4 + |b|..] == y;
  }

  function EntryDomain(): (d: Bytes) {
    Ascii("DGX-LEDGER-ENTRY-V1")
  }

  function PayloadDomain(): (d: Bytes) {
    Ascii("DGX-LEDGER-PAYLOAD-V1")
  }

  /** The predecessor hash of the first entry; no digest has its length. */
  function Genesis(): (g: Bytes)
    ensures |g| == 21
  {
    Ascii("GENESIS-DGX-LEDGER-V1")
  }

  /** Values struct.pack accepts for one ledger entry. */
  predicate Packable(seqNo: int, prev: Bytes, payloadHash: Bytes) {
    0 <= seqNo < Pow256(8) && |prev| < Pow256(4) && |payloadHash| < Pow256(4)
  }

  function EntryMessage(seqNo: int, prev: Bytes, payloadHash: Bytes): Bytes
    requires Packable(seqNo, prev, payloadHash)
  {
    assert 8 < Pow256(4) by { PowFour(); }
    EntryDomain() + (Framed(BigEndian(seqNo, 8)) + (Framed(prev) + Framed(payloadHash)))
  }

  lemma PowFour()
    ensures Pow256(4) > 64
  {
    assert Pow256(1) == 256;
    assert Pow256(2) == 65536;
    assert Pow256(4) == 256 * (256 * Pow256(2));
  }

  /** The entry framing loses nothing: equal messages come from equal fields. */
  lemma EntryMessageInjective(s: int, prev: Bytes, pay: Bytes, s': int, prev': Bytes, pay': Bytes)
    requires Packable(s, prev, pay) && Packable(s', prev', pay')
    requires EntryMessage(s, prev, pay) == EntryMessage(s', prev', pay')
    ensures s == s' && prev == prev' && pay == pay'
  {
    PowFour();
    hide EntryDomain, Pow256;
    var rest, rest' := Framed(prev) + Framed(pay), Framed(prev') + Framed(pay');
    var body, body' := Framed(BigEndian(s, 8)) + rest, Framed(BigEndian(s', 8)) + rest';
    assert (EntryDomain() + body)[|EntryDomain()|..] == body;
    assert (EntryDomain() + body')[|EntryDomain()|..] == body';
    FramedInjective(BigEndian(s, 8), rest, BigEndian(s', 8), rest');
    BigEndianInjective(s, s', 8);
    FramedInjective(prev, Framed(pay), prev', Framed(pay'));
    assert Framed(pay) + [] == Framed(pay) && Framed(pay') + [] == Framed(pay');
    FramedInjective(pay, [], pay', []);
  }

  // ----- what is written can be read back

  /** ASCII text keeps its character codes. */
  lemma AsciiIs(s: string)
    requires forall i :: 0 <= i < |s| ==> s[i] as int < 256
    ensures forall i :: 0 <= i < |s| ==> Ascii(s)[i] as int == s[i] as int
  {
  }

  lemma PowValues()
    ensures Pow256(4) == 0x1_0000_0000 && Pow256(8) == 0x1_0000_0000_0000_0000
  {
    assert Pow256(2) == 0x1_0000;
    assert Pow256(4) == 256 * (256 * Pow256(2));
    assert Pow256(6) == 256 * (256 * Pow256(4));
    assert Pow256(8) == 256 * (256 * Pow256(6));
  }

  /** The number that big-endian bytes stand for. */
  function Value(b: Bytes): nat {
    if b == [] then 0 else 256 * Value(b[..|b| - 1]) + b[|b| - 1] as nat
  }

  lemma {:induction false} BigEndianRoundTrip(n: nat, width: nat)
    requires n < Pow256(width)
    ensures Value(BigEndian(n, width)) == n
  {
    if width > 0 {
      BigEndianRoundTrip(n / 256, width - 1);
      assert BigEndian(n, width)[..width - 1] == BigEndian(n / 256, width - 1);
    }
  }

  lemma FramedLayout(field: Bytes, rest: Bytes)
    requires |field| < Pow256(4)
    ensures var m := Framed(field) + rest;
            Value(m[..4]) == |field| && m[4..4 + |field|] == field && m[4 + |field|..] == rest
  {
    BigEndianRoundTrip(|field|, 4);
    assert (Framed(field) + rest)[..4] == BigEndian(|field|, 4);
  }

  /** Byte for byte: the domain tag, then sequence number, previous hash and payload
      hash, each behind its length in four bytes. */
  lemma EntryLayout(seqNo: int, prev: Bytes, payloadHash: Bytes)
    requires Packable(seqNo, prev, payloadHash)
    ensures var m, at := EntryMessage(seqNo, prev, payloadHash), 35 + |prev|;
            && |m| == at + 4 + |payloadHash| && m[..19] == Ascii("DGX-LEDGER-ENTRY-V1")
            && Value(m[19..23]) == 8 && Value(m[23..31]) == seqNo
            && Value(m[31..35]) == |prev| && m[35..at] == prev
            && Value(m[at..at + 4]) == |payloadHash| && m[at + 4..] == payloadHash
  {
    PowFour();
    BigEndianRoundTrip(seqNo, 8);
    hide Pow256, BigEndian, Value;
    var number, tail := BigEndian(seqNo, 8), Framed(prev) + Framed(payloadHash);
    var body := Framed(number) + tail;
    FramedLayout(number, tail);
    FramedLayout(prev, Framed(payloadHash));
    FramedLayout(payloadHash, []);
    hide Framed;
    assert Framed(payloadHash) + [] == Framed(payloadHash);
    var m := EntryMessage(seqNo, prev, payloadHash);
    assert m[..19] == EntryDomain() && m[19..] == body && m[31..] == tail;
    assert m[19..23] == body[..4] && m[23..31] == body[4..12];
    assert m[31..35] == tail[..4] && m[35..35 + |prev|] == tail[4..4 + |prev|];
    assert m[35 + |prev|..] == Framed(payloadHash);
    assert m[35 + |prev|..39 + |prev|] == Framed(payloadHash)[..4];
    assert m[39 + |prev|..] == Framed(payloadHash)[4..];
  }
}
