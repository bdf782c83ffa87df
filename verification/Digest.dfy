/**
 * A stand-in for SHA-256 over file contents. The proofs use three things about it only, stated as
 * lemmas here: different contents have different digests, no digest is empty, and none holds
 * whitespace.
 */
module Digest {
  import opened ChecksumList
  import opened Texts

  /** One of 2048 consecutive ideographs, none of them whitespace. */
  function Glyph(n: nat): (c: char)
    requires n < 2048
    ensures !IsSpace(c) && c as int == 0x4e00 + n
  {
    (0x4e00 + n) as char
  }

  function Glyphs(data: string): string {
    if data == [] then [] else [Glyph(data[0] as int / 2048), Glyph(data[0] as int % 2048)] + Glyphs(data[1..])
  }

  function Sha256(data: string): string { "#" + Glyphs(data) }

  lemma {:induction false} GlyphsInjective(a: string, b: string)
    requires Glyphs(a) == Glyphs(b)
    ensures a == b
  {
    if a != [] && b != [] {
      var x, y := Glyphs(a), Glyphs(b);
      assert x[0] as int == 0x4e00 + a[0] as int / 2048 && y[0] as int == 0x4e00 + b[0] as int / 2048;
      assert x[1] as int == 0x4e00 + a[0] as int % 2048 && y[1] as int == 0x4e00 + b[0] as int % 2048;
      assert a[0] as int == b[0] as int;
      assert Glyphs(a[1..]) == x[2..] && Glyphs(b[1..]) == y[2..];
      GlyphsInjective(a[1..], b[1..]);
      assert a == [a[0]] + a[1..] && b == [b[0]] + b[1..];
    }
  }

  lemma Sha256Injective(a: string, b: string)
    ensures Sha256(a) == Sha256(b) <==> a == b
  {
    if Sha256(a) == Sha256(b) {
      assert Glyphs(a) == Sha256(a)[1..] && Glyphs(b) == Sha256(b)[1..];
      GlyphsInjective(a, b);
    }
  }

  lemma {:induction false} GlyphsSpaceless(data: string)
    ensures NoSpace(Glyphs(data))
  {
    if data != [] { GlyphsSpaceless(data[1..]); }
  }

  lemma Sha256IsGood(data: string)
    ensures GoodDigest(Sha256(data))
  {
    GlyphsSpaceless(data);
  }
}
