/** JavaScript strings: sequences of 16-bit code units, paired surrogates or not. */
module Utf16 {
  newtype CodeUnit = x: int | 0 <= x < 0x10000

  type Text = seq<CodeUnit>

  predicate IsSpace(c: CodeUnit) {
    9 <= c <= 13 || c == 32 || c == 160 || c == 0x1680 || 0x2000 <= c <= 0x200a ||
    c == 0x2028 || c == 0x2029 || c == 0x202f || c == 0x205f || c == 0x3000 || c == 0xfeff
  }
}
