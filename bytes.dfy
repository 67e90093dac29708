/**
 * Go strings are byte strings: `len`, slicing and comparison all work on
 * bytes, so every text of the bot is a sequence of bytes here.
 */
module Bytes {

  newtype byte = x: int | 0 <= x < 256

  /** The bytes of a literal; every literal of the bot is ASCII, one byte per character. */
  function Ascii(s: string): seq<byte>
  {
    seq(|s|, i requires 0 <= i < |s| => (s[i] as int % 256) as byte)
  }

  /** The single space that separates the words of a command. */
  const Space: byte := 32

  /** The newline that ends the title line of a chunk. */
  const Newline: byte := 10

  /** U+200B ZERO WIDTH SPACE in UTF-8, the separator between chunks of a page. */
  const ZeroWidthSpace: seq<byte> := [0xE2, 0x80, 0x8B]

  /** "man!", the trigger word. */
  const Trigger: seq<byte> := [109, 97, 110, 33]

  /** "0", the section that means "probe sections 1 to 9". */
  const AnySection: seq<byte> := [48]
}
