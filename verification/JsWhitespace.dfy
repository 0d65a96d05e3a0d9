module JsWhitespace {
  /** White space as `\s` and `String.prototype.trim` see it. */
  predicate IsSpace(c: char) {
    || '\t' <= c <= '\r' || c == ' ' || c == '\U{A0}' || c == '\U{1680}' || '\U{2000}' <= c <= '\U{200A}'
    || c in {'\U{2028}', '\U{2029}', '\U{202F}', '\U{205F}', '\U{3000}', '\U{FEFF}'}
  }

  /** The code points of `WhiteSpace` and `LineTerminator` in section 12 of ECMA-262. */
  lemma SpaceExactly(c: char)
    ensures IsSpace(c) <==>
      var u := c as int;
      || u in {9, 10, 11, 12, 13, 32, 160, 5760, 8232, 8233, 8239, 8287, 12288, 65279} || 8192 <= u <= 8202
  {}
}
