/** What JavaScript's strings count as white space. */
module JsStrings {
  /** White space to String.prototype.trim: the Unicode space separators and the line ends. */
  predicate JsSpace(u: int) {
    || 0x09 <= u <= 0x0D || u == 0x20 || u == 0xA0 || u == 0x1680 || 0x2000 <= u <= 0x200A
    || u == 0x2028 || u == 0x2029 || u == 0x202F || u == 0x205F || u == 0x3000 || u == 0xFEFF
  }
}
