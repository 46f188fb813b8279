/**
 * Strings, whitespace and trimming as the two runtimes see them.
 *
 * Go's strings.TrimSpace and unicode.IsSpace use the Unicode White_Space
 * property; JavaScript's String.prototype.trim uses WhiteSpace plus
 * LineTerminator from ECMA-262. The two sets differ in exactly two code
 * points: U+0085 (NEXT LINE) is space only for Go, U+FEFF (BYTE ORDER MARK)
 * only for JavaScript.
 */
module Text {

  type Byte = b: int | 0 <= b < 256

  /** unicode.IsSpace of the Go standard library. */
  predicate GoIsSpace(c: char) {
    var n := c as int;
    (0x09 <= n <= 0x0D) || n == 0x20 || n == 0x85 || n == 0xA0 || n == 0x1680
    || (0x2000 <= n <= 0x200A) || n == 0x2028 || n == 0x2029 || n == 0x202F
    || n == 0x205F || n == 0x3000
  }

  /** The characters String.prototype.trim removes (ECMA-262 WhiteSpace and LineTerminator). */
  predicate JsIsWhiteSpace(c: char) {
    var n := c as int;
    (0x09 <= n <= 0x0D) || n == 0x20 || n == 0xA0 || n == 0xFEFF || n == 0x1680
    || (0x2000 <= n <= 0x200A) || n == 0x2028 || n == 0x2029 || n == 0x202F
    || n == 0x205F || n == 0x3000
  }

  /** The two whitespace sets differ in exactly U+0085 and U+FEFF. */
  lemma WhitespaceSetsDiffer(c: char)
    ensures GoIsSpace(c) && !JsIsWhiteSpace(c) <==> c == '\U{0085}'
    ensures JsIsWhiteSpace(c) && !GoIsSpace(c) <==> c == '\U{FEFF}'
  {
  }

  /** Every character of `s` is whitespace: what "empty after trimming" means. */
  predicate AllSpace(s: string, space: char -> bool) {
    forall i :: 0 <= i < |s| ==> space(s[i])
  }

  /** Some character of `s`, at any position, is whitespace. */
  predicate HasSpace(s: string, space: char -> bool) {
    exists i :: 0 <= i < |s| && space(s[i])
  }

  /** Drops the leading whitespace of `s`. */
  function TrimLeft(s: string, space: char -> bool): (r: string)
    ensures |r| <= |s| && r == s[|s| - |r|..]
    ensures AllSpace(s[..|s| - |r|], space)
    ensures |r| > 0 ==> !space(r[0])
    decreases |s|
  {
    if |s| > 0 && space(s[0]) then TrimLeft(s[1..], space) else s
  }

  /** Drops the trailing whitespace of `s`. */
  function TrimRight(s: string, space: char -> bool): (r: string)
    ensures |r| <= |s| && r == s[..|r|]
    ensures AllSpace(s[|r|..], space)
    ensures |r| > 0 ==> !space(r[|r| - 1])
    decreases |s|
  {
    if |s| > 0 && space(s[|s| - 1]) then TrimRight(s[..|s| - 1], space) else s
  }

  /** Drops leading and trailing whitespace: strings.TrimSpace in Go, trim() in JavaScript. */
  function Trim(s: string, space: char -> bool): (r: string)
  {
    TrimRight(TrimLeft(s, space), space)
  }

  /**
   * `len(strings.TrimSpace(s)) == 0` in Go, `s.trim().length == 0` in
   * JavaScript: the test every "not empty" check of the model performs.
   */
  function TrimsToEmpty(s: string, space: char -> bool): (b: bool)
    ensures b <==> AllSpace(s, space)
  {
    TrimEmptyIffAllSpace(s, space);
    |Trim(s, space)| == 0
  }

  /** A string is empty after trimming exactly when it consists of whitespace only. */
  lemma TrimEmptyIffAllSpace(s: string, space: char -> bool)
    ensures |Trim(s, space)| == 0 <==> AllSpace(s, space)
  {
    var l := TrimLeft(s, space);
    if |Trim(s, space)| == 0 {
      assert AllSpace(l[0..], space);
      assert |l| == 0;
      assert s[..|s| - |l|] == s;
    } else {
      var r := Trim(s, space);
      assert !space(r[0]);
      assert r[0] == l[0];
      assert l[0] == s[|s| - |l|];
    }
  }

  /** Trimming twice is trimming once. */
  lemma TrimIdempotent(s: string, space: char -> bool)
    ensures Trim(Trim(s, space), space) == Trim(s, space)
  {
    var r := Trim(s, space);
    if |r| > 0 {
      assert !space(r[0]) && !space(r[|r| - 1]);
      assert TrimLeft(r, space) == r;
      assert TrimRight(r, space) == r;
    }
  }

  // ---------------------------------------------------------------------------
  // UTF-8, the representation Go strings have in memory.

  /** The UTF-8 encoding of one Unicode scalar value. */
  function Utf8Char(c: char): (r: seq<Byte>)
    ensures 1 <= |r| <= 4
    ensures (c as int < 0x80) <==> |r| == 1
    ensures |r| == 1 ==> r[0] == c as int
    ensures forall k :: 1 <= k < |r| ==> 0x80 <= r[k] < 0xC0
  {
    var n := c as int;
    if n < 0x80 then [n]
    else if n < 0x800 then [0xC0 + n / 0x40, 0x80 + n % 0x40]
    else if n < 0x10000 then [0xE0 + n / 0x1000, 0x80 + (n / 0x40) % 0x40, 0x80 + n % 0x40]
    else [0xF0 + n / 0x40000, 0x80 + (n / 0x1000) % 0x40, 0x80 + (n / 0x40) % 0x40, 0x80 + n % 0x40]
  }

  /** The UTF-8 bytes of a string, the sequence `s[i]` indexes in Go. */
  function Utf8(s: string): (r: seq<Byte>)
    ensures |r| >= |s|
  {
    if |s| == 0 then [] else Utf8Char(s[0]) + Utf8(s[1..])
  }

  /** A string of ASCII characters is encoded byte for byte. */
  predicate IsAscii(s: string) {
    forall i :: 0 <= i < |s| ==> s[i] as int < 0x80
  }

  lemma {:induction false} AsciiUtf8(s: string)
    requires IsAscii(s)
    ensures |Utf8(s)| == |s|
    ensures forall i :: 0 <= i < |s| ==> Utf8(s)[i] == s[i] as int
  {
    if |s| > 0 {
      assert IsAscii(s[1..]) by {
        forall i | 0 <= i < |s[1..]| ensures s[1..][i] as int < 0x80 {
          assert s[1..][i] == s[i + 1];
        }
      }
      AsciiUtf8(s[1..]);
    }
  }
}
