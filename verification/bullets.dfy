/** The bullet that pkg/markdown/parse.go writes for a `- ` item: U+2022
    BULLET in UTF-8 followed by a space.  The converter works on bytes (one
    `char` per byte), so `Converter.BulletPrefix` spells the bullet as its
    three UTF-8 bytes. */
module Bullets {
  import opened Utf8
  import Converter

  /** U+2022 BULLET. */
  const BulletRune: nat := 0x2022

  /** The converter's prefix is the bullet in UTF-8 and a space, and its
      first three bytes decode to the bullet. */
  lemma BulletPrefixIsBullet()
    ensures Converter.BulletPrefix == EncodeRune(BulletRune) + " "
    ensures DecodeRune(Converter.BulletPrefix[..3]) == Some(BulletRune)
  {
    DecodeEncode(BulletRune);
    assert Converter.BulletPrefix[..3] == EncodeRune(BulletRune);
  }
}
