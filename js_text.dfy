/** JavaScript string behaviour the extension relies on: `String.prototype.trim`,
    `Number(s)` used as an array index, `n.toString()`, and `.length`, which counts
    UTF-16 code units. Strings are sequences of Unicode scalar values (`string`);
    page text, which is cut by code units, is a sequence of `CodeUnit`s. */
module JsText {

  datatype Option<+T> = None | Some(value: T) {
    function GetOr(default: T): T {
      match this
      case Some(v) => v
      case None => default
    }
  }

  newtype CodeUnit = x: int | 0 <= x < 0x1_0000

  /** A sequence of UTF-16 code units, as a JavaScript string is stored. */
  type Utf16 = seq<CodeUnit>

  /** WhiteSpace and LineTerminator of ECMAScript: what `trim` removes and what
      `Number` ignores around its digits. */
  predicate IsJsWhitespace(c: char) {
    c == '\t' || c == '\n' || c == '\U{B}' || c == '\U{C}' || c == '\r' || c == ' ' ||
    c == '\U{A0}' || c == '\U{1680}' || ('\U{2000}' <= c <= '\U{200A}') ||
    c == '\U{2028}' || c == '\U{2029}' || c == '\U{202F}' || c == '\U{205F}' ||
    c == '\U{3000}' || c == '\U{FEFF}'
  }

  function TrimStart(s: string): (r: string)
    ensures |r| <= |s| && r == s[|s| - |r|..]
    ensures r == [] || !IsJsWhitespace(r[0])
    ensures forall i :: 0 <= i < |s| - |r| ==> IsJsWhitespace(s[i])
  {
    if s != [] && IsJsWhitespace(s[0]) then TrimStart(s[1..]) else s
  }

  function TrimEnd(s: string): (r: string)
    ensures |r| <= |s| && r == s[..|r|]
    ensures r == [] || !IsJsWhitespace(r[|r| - 1])
    ensures forall i :: |r| <= i < |s| ==> IsJsWhitespace(s[i])
  {
    if s != [] && IsJsWhitespace(s[|s| - 1]) then TrimEnd(s[..|s| - 1]) else s
  }

  /** JavaScript `trim`: white space removed from both ends. */
  function Trim(s: string): string {
    TrimEnd(TrimStart(s))
  }

  /** The trimmed string is empty exactly when every character is white space. */
  lemma TrimEmpty(s: string)
    ensures Trim(s) == [] <==> forall i :: 0 <= i < |s| ==> IsJsWhitespace(s[i])
  {
  }

  /** An ASCII letter, as `[a-zA-Z]` matches it. */
  predicate IsLetter(c: char) {
    ('a' <= c <= 'z') || ('A' <= c <= 'Z')
  }

  predicate IsDigit(c: char) {
    '0' <= c <= '9'
  }

  predicate AllDigits(s: string) {
    forall i :: 0 <= i < |s| ==> IsDigit(s[i])
  }

  /** Decimal value of a string of ASCII digits. */
  function DigitsValue(s: string): nat
    requires AllDigits(s)
  {
    if s == [] then 0 else 10 * DigitsValue(s[..|s| - 1]) + (s[|s| - 1] as int - '0' as int)
  }

  /** `n.toString()` for a natural number: its shortest decimal spelling. */
  function NatToString(n: nat): (r: string)
    ensures r != [] && AllDigits(r)
    ensures |r| > 1 ==> r[0] != '0'
    ensures DigitsValue(r) == n
  {
    if n < 10 then ['0' + n as char]
    else
      var r := NatToString(n / 10) + ['0' + (n % 10) as char];
      assert r[..|r| - 1] == NatToString(n / 10);
      r
  }

  /** `Number(s)` where it is used to index `document.forms`: surrounding white space
      is ignored, a blank string is 0 and a string of decimal digits is its value.
      `None` stands for every other outcome (NaN, a fraction, a negative number),
      none of which is a position in the collection. */
  function ParseIndex(s: string): (r: Option<nat>)
    ensures r.Some? <==> Trim(s) == [] || AllDigits(Trim(s))
    ensures Trim(s) == [] ==> r == Some(0)
    ensures r.Some? && Trim(s) != [] ==> r.value == DigitsValue(Trim(s))
  {
    var t := Trim(s);
    if t == [] then Some(0)
    else if AllDigits(t) then Some(DigitsValue(t))
    else None
  }

  /** A string that neither starts nor ends with white space is its own trim. */
  lemma TrimUnchanged(s: string)
    requires s != [] && !IsJsWhitespace(s[0]) && !IsJsWhitespace(s[|s| - 1])
    ensures Trim(s) == s
  {
    assert TrimStart(s) == s;
    assert TrimEnd(s) == s;
  }

  /** Scanning labels an unnamed form by `index.toString()`; `Number` reads that label
      back as the same index. */
  lemma ParseIndexOfNatToString(n: nat)
    ensures ParseIndex(NatToString(n)) == Some(n)
  {
    var s := NatToString(n);
    assert IsDigit(s[0]) && IsDigit(s[|s| - 1]);
    TrimUnchanged(s);
  }

  /** Number of UTF-16 code units of a character: two for a character outside the
      Basic Multilingual Plane. */
  function UnitsOf(c: char): nat {
    if c as int >= 0x1_0000 then 2 else 1
  }

  /** The number of characters of `s` outside the Basic Multilingual Plane. */
  function CountAstral(s: string): (n: nat)
    ensures n <= |s|
  {
    if s == [] then 0 else (if s[0] as int >= 0x1_0000 then 1 else 0) + CountAstral(s[1..])
  }

  lemma {:induction false} CountAstralSnoc(s: string, c: char)
    ensures CountAstral(s + [c]) == CountAstral(s) + (if c as int >= 0x1_0000 then 1 else 0)
  {
    if s != [] {
      assert (s + [c])[1..] == s[1..] + [c];
      CountAstralSnoc(s[1..], c);
    }
  }

  /** `s.length` in JavaScript: one code unit per character plus one more for each
      character outside the Basic Multilingual Plane. */
  function Utf16Length(s: string): (n: nat)
    ensures n == |s| + CountAstral(s)
    ensures |s| <= n <= 2 * |s|
  {
    if s == [] then 0
    else
      assert s == s[..|s| - 1] + [s[|s| - 1]];
      CountAstralSnoc(s[..|s| - 1], s[|s| - 1]);
      Utf16Length(s[..|s| - 1]) + UnitsOf(s[|s| - 1])
  }
}
