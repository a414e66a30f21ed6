/** The two pieces of JavaScript string semantics that the registration form
    relies on: the character class `\s` of a regular expression, and the
    `length` of a string, which counts UTF-16 code units. Dafny's `char` is a
    Unicode scalar value, so both are stated here over scalar values. */
module JsString {

  /** The characters matched by `\s`: ECMAScript's WhiteSpace and
      LineTerminator code points (ECMA-262, ECMAScript 2023, sections 12.2
      and 12.3), i.e. TAB, LF, VT, FF, CR, SPACE, NBSP, ZWNBSP (U+FEFF),
      the remaining members of the Unicode category Zs, LINE SEPARATOR and
      PARAGRAPH SEPARATOR. */
  predicate IsWs(c: char)
    ensures IsWs(c) ==> c != '@' && c != '.' && c as int < 0x10000
  {
    var n := c as int;
    (0x09 <= n <= 0x0D) || n == 0x20 || n == 0xA0 || n == 0x1680 ||
    (0x2000 <= n <= 0x200A) || n == 0x2028 || n == 0x2029 || n == 0x202F ||
    n == 0x205F || n == 0x3000 || n == 0xFEFF
  }

  /** JavaScript's `s.length`: a code point above U+FFFF is stored as a
      surrogate pair and counts twice, every other one counts once. */
  function Utf16Length(s: string): (n: nat)
    ensures |s| <= n <= 2 * |s|
    ensures n == 0 <==> s == []
    ensures (forall k | 0 <= k < |s| :: s[k] as int < 0x10000) ==> n == |s|
  {
    if s == [] then 0
    else (if s[0] as int >= 0x10000 then 2 else 1) + Utf16Length(s[1..])
  }
}
