/** The id escaper of the fill script and how the browser's selector engine reads
    the two selectors the script builds from page-supplied strings: `#<escaped id>`
    and `[name="<name>"]`. Reading follows the tokenizer of CSS Syntax Level 3
    (identifiers, escapes, strings); a selector that is not a single id selector or
    a single name-equality selector is a syntax error, which `querySelector` throws. */
module CssSelector {
  import opened JsText

  /** The characters the escaper prefixes with a backslash. */
  predicate IsReserved(c: char) {
    c == ' ' || c == '#' || c == ';' || c == '?' || c == '%' || c == '&' || c == ',' ||
    c == '.' || c == '+' || c == '*' || c == '~' || c == '\'' || c == ':' || c == '"' ||
    c == '!' || c == '^' || c == '$' || c == '[' || c == ']' || c == '(' || c == ')' ||
    c == '=' || c == '>' || c == '|' || c == '/' || c == '@'
  }

  /** Every reserved character of `s` gets a backslash in front of it; all other
      characters, the backslash itself included, are copied unchanged. */
  function Escape(s: string): string {
    if s == [] then []
    else (if IsReserved(s[0]) then ['\\', s[0]] else [s[0]]) + Escape(s[1..])
  }

  function CountReserved(s: string): nat {
    if s == [] then 0 else (if IsReserved(s[0]) then 1 else 0) + CountReserved(s[1..])
  }

  /** Escaping adds exactly one character per reserved character. */
  lemma {:induction false} EscapeLength(s: string)
    ensures |Escape(s)| == |s| + CountReserved(s)
  {
    if s != [] {
      EscapeLength(s[1..]);
    }
  }

  lemma {:induction false} CountReservedZero(s: string)
    ensures CountReserved(s) == 0 <==> forall i :: 0 <= i < |s| ==> !IsReserved(s[i])
  {
    if s != [] {
      CountReservedZero(s[1..]);
      assert forall i :: 1 <= i < |s| ==> s[i] == s[1..][i - 1];
    }
  }

  lemma {:induction false} EscapeNoReserved(s: string)
    requires forall i :: 0 <= i < |s| ==> !IsReserved(s[i])
    ensures Escape(s) == s
  {
    if s != [] {
      EscapeNoReserved(s[1..]);
    }
  }

  /** The escaper leaves a string unchanged exactly when it holds no reserved
      character. */
  lemma EscapeIdentity(s: string)
    ensures Escape(s) == s <==> forall i :: 0 <= i < |s| ==> !IsReserved(s[i])
  {
    EscapeLength(s);
    CountReservedZero(s);
    if forall i :: 0 <= i < |s| ==> !IsReserved(s[i]) {
      EscapeNoReserved(s);
    }
  }

  /** Escaping works character by character. */
  lemma {:induction false} EscapeConcat(a: string, b: string)
    ensures Escape(a + b) == Escape(a) + Escape(b)
  {
    if a != [] {
      assert (a + b)[0] == a[0] && (a + b)[1..] == a[1..] + b;
      EscapeConcat(a[1..], b);
    } else {
      assert a + b == b;
    }
  }

  /** Each reserved character becomes a backslash and itself; every other character
      is copied. */
  lemma EscapeChar(c: char)
    ensures Escape([c]) == if IsReserved(c) then ['\\', c] else [c]
  {
    assert [c][1..] == [];
  }

  lemma {:induction false} CountReservedConcat(a: string, b: string)
    ensures CountReserved(a + b) == CountReserved(a) + CountReserved(b)
  {
    if a != [] {
      assert (a + b)[0] == a[0] && (a + b)[1..] == a[1..] + b;
      CountReservedConcat(a[1..], b);
    } else {
      assert a + b == b;
    }
  }

  /** The backslash that escaping inserts is not reserved, so escaping keeps the
      number of reserved characters. */
  lemma {:induction false} EscapeKeepsReserved(s: string)
    ensures CountReserved(Escape(s)) == CountReserved(s)
  {
    if s != [] {
      var head := if IsReserved(s[0]) then ['\\', s[0]] else [s[0]];
      CountReservedConcat(head, Escape(s[1..]));
      EscapeKeepsReserved(s[1..]);
      assert [s[0]][1..] == [];
      assert ['\\', s[0]][1..] == [s[0]];
    }
  }

  /** Escaping is not idempotent: escaping an escaped string changes it again
      exactly when the original holds a reserved character, which is escaped a
      second time. */
  lemma EscapeIdempotentIff(s: string)
    ensures Escape(Escape(s)) == Escape(s) <==> forall i :: 0 <= i < |s| ==> !IsReserved(s[i])
  {
    EscapeIdentity(Escape(s));
    EscapeKeepsReserved(s);
    CountReservedZero(Escape(s));
    CountReservedZero(s);
  }

  // ---------------------------------------------------------------------------
  // CSS tokenizing: identifiers, escapes and strings

  /** The characters that start a newline in the selector text: LF, CR and FF. */
  predicate IsNewline(c: char) {
    c == '\n' || c == '\r' || c == '\U{C}'
  }

  /** The character CSS input preprocessing puts in place of a single character. */
  function PreprocessChar(c: char): char {
    if c == '\r' || c == '\U{C}' then '\n'
    else if c == '\0' then '\U{FFFD}'
    else c
  }

  /** CSS input preprocessing (CSS Syntax Level 3, section 3.3): a CR LF pair, a CR
      and a FF each become one LF, and U+0000 becomes U+FFFD. The tokenizer only
      ever sees the preprocessed text. */
  function Preprocess(s: string): string {
    if s == [] then []
    else if s[0] == '\r' && |s| >= 2 && s[1] == '\n' then ['\n'] + Preprocess(s[2..])
    else [PreprocessChar(s[0])] + Preprocess(s[1..])
  }

  /** A CR LF pair becomes one LF. */
  lemma PreprocessPair(w: string)
    ensures Preprocess(['\r', '\n'] + w) == ['\n'] + Preprocess(w)
  {
    var s := ['\r', '\n'] + w;
    assert s[0] == '\r' && s[1] == '\n' && s[2..] == w;
  }

  /** Any other first character is preprocessed on its own. */
  lemma PreprocessSingle(c: char, w: string)
    requires !(c == '\r' && w != [] && w[0] == '\n')
    ensures Preprocess([c] + w) == [PreprocessChar(c)] + Preprocess(w)
  {
    var s := [c] + w;
    assert s[0] == c && s[1..] == w;
    assert w != [] ==> s[1] == w[0];
  }

  /** A CR LF pair in front keeps preprocessing piecewise. */
  lemma PreprocessConcatPair(u: string, t: string)
    requires Preprocess(u + t) == Preprocess(u) + Preprocess(t)
    ensures Preprocess(['\r', '\n'] + u + t) == Preprocess(['\r', '\n'] + u) + Preprocess(t)
  {
    var pair := ['\r', '\n'];
    calc {
      Preprocess(pair + u + t);
      == { assert pair + u + t == pair + (u + t); }
      Preprocess(pair + (u + t));
      == { PreprocessPair(u + t); }
      ['\n'] + Preprocess(u + t);
      ==
      (['\n'] + Preprocess(u)) + Preprocess(t);
      == { PreprocessPair(u); }
      Preprocess(pair + u) + Preprocess(t);
    }
  }

  /** A single character in front that does not start a CR LF pair keeps
      preprocessing piecewise. */
  lemma PreprocessConcatSingle(c: char, u: string, t: string)
    requires !(c == '\r' && u + t != [] && (u + t)[0] == '\n')
    requires !(c == '\r' && u != [] && u[0] == '\n')
    requires Preprocess(u + t) == Preprocess(u) + Preprocess(t)
    ensures Preprocess([c] + u + t) == Preprocess([c] + u) + Preprocess(t)
  {
    calc {
      Preprocess([c] + u + t);
      == { assert [c] + u + t == [c] + (u + t); }
      Preprocess([c] + (u + t));
      == { PreprocessSingle(c, u + t); }
      [PreprocessChar(c)] + Preprocess(u + t);
      ==
      ([PreprocessChar(c)] + Preprocess(u)) + Preprocess(t);
      == { PreprocessSingle(c, u); }
      Preprocess([c] + u) + Preprocess(t);
    }
  }

  /** Preprocessing works piecewise as long as the second piece does not start with
      the LF of a CR LF pair. */
  lemma {:induction false} PreprocessConcat(a: string, t: string)
    requires t == [] || t[0] != '\n'
    ensures Preprocess(a + t) == Preprocess(a) + Preprocess(t)
  {
    if a == [] {
      assert a + t == t;
    } else if a[0] == '\r' && |a| >= 2 && a[1] == '\n' {
      var u := a[2..];
      PreprocessConcat(u, t);
      assert a == ['\r', '\n'] + u;
      PreprocessConcatPair(u, t);
    } else {
      var u := a[1..];
      PreprocessConcat(u, t);
      assert a == [a[0]] + u;
      assert !(a[0] == '\r' && u + t != [] && (u + t)[0] == '\n') by {
        if u != [] { assert (u + t)[0] == u[0] && a[1] == u[0]; }
        else { assert u + t == t; }
      }
      PreprocessConcatSingle(a[0], u, t);
    }
  }

  /** On text without newlines preprocessing only replaces U+0000, one character
      at a time. */
  lemma {:induction false} PreprocessNoNewline(s: string)
    requires forall i :: 0 <= i < |s| ==> !IsNewline(s[i])
    ensures |Preprocess(s)| == |s|
    ensures forall i :: 0 <= i < |s| ==> Preprocess(s)[i] == PreprocessChar(s[i])
  {
    if s != [] {
      PreprocessNoNewline(s[1..]);
      assert forall i :: 1 <= i < |s| ==> Preprocess(s)[i] == Preprocess(s[1..])[i - 1];
    }
  }

  /** A character that preprocessing keeps: neither U+0000, CR nor FF. */
  predicate Unprocessed(c: char) {
    c != '\0' && c != '\r' && c != '\U{C}'
  }

  /** A first character that preprocessing keeps stays first. */
  lemma PreprocessHead(s: string)
    requires s != [] && Unprocessed(s[0])
    ensures Preprocess(s) != [] && Preprocess(s)[0] == s[0]
  {
  }

  /** Text without U+0000, CR or FF is left as it is. */
  lemma {:induction false} PreprocessClean(s: string)
    requires forall i :: 0 <= i < |s| ==> Unprocessed(s[i])
    ensures Preprocess(s) == s
  {
    if s != [] {
      PreprocessClean(s[1..]);
      assert s == [s[0]] + s[1..];
    }
  }

  predicate IsCssWhitespace(c: char) {
    IsNewline(c) || c == '\t' || c == ' '
  }

  predicate AllCssWhitespace(s: string) {
    forall i :: 0 <= i < |s| ==> IsCssWhitespace(s[i])
  }

  predicate IsHexDigit(c: char) {
    ('0' <= c <= '9') || ('a' <= c <= 'f') || ('A' <= c <= 'F')
  }

  function HexValue(c: char): nat
    requires IsHexDigit(c)
  {
    if '0' <= c <= '9' then c as int - '0' as int
    else if 'a' <= c <= 'f' then c as int - 'a' as int + 10
    else c as int - 'A' as int + 10
  }

  /** An identifier-start code point of the preprocessed text. */
  predicate IsIdentStart(c: char) {
    IsLetter(c) || c == '_' || c as int >= 0x80
  }

  predicate IsNameChar(c: char) {
    IsIdentStart(c) || ('0' <= c <= '9') || c == '-'
  }

  /** A backslash that is not followed by a newline starts an escape. */
  predicate StartsValidEscape(s: string) {
    s != [] && s[0] == '\\' && (|s| == 1 || !IsNewline(s[1]))
  }

  /** Whether `s` would start an identifier (CSS Syntax Level 3, section 4.3.9). */
  predicate StartsIdentifier(s: string) {
    s != [] &&
    if s[0] == '-' then
      (|s| >= 2 && (IsIdentStart(s[1]) || s[1] == '-')) || StartsValidEscape(s[1..])
    else
      IsIdentStart(s[0]) || StartsValidEscape(s)
  }

  function ConsumeHexDigits(s: string, n: nat, acc: nat): (r: (nat, string))
    ensures |r.1| <= |s|
    decreases n
  {
    if n == 0 || s == [] || !IsHexDigit(s[0]) then (acc, s)
    else ConsumeHexDigits(s[1..], n - 1, 16 * acc + HexValue(s[0]))
  }

  /** The character a hexadecimal escape denotes; zero, surrogates and values past
      U+10FFFF denote U+FFFD. */
  function CodePointChar(v: nat): char {
    if v == 0 || (0xD800 <= v <= 0xDFFF) || v > 0x10FFFF then '\U{FFFD}' else v as char
  }

  /** Reads the escape whose backslash has just been consumed: up to six hex digits
      and one white space after them, or else one character. */
  function ConsumeEscape(s: string): (r: (char, string))
    ensures |r.1| < |s| || s == r.1 == []
  {
    if s == [] then ('\U{FFFD}', [])
    else if IsHexDigit(s[0]) then
      var (v, rest) := ConsumeHexDigits(s[1..], 5, HexValue(s[0]));
      (CodePointChar(v), if rest != [] && IsCssWhitespace(rest[0]) then rest[1..] else rest)
    else (s[0], s[1..])
  }

  /** Reads the longest run of name characters and escapes: its value and the rest. */
  function ConsumeName(s: string): (r: (string, string))
    ensures |r.1| <= |s|
    decreases |s|
  {
    if s != [] && IsNameChar(s[0]) then
      var (v, rest) := ConsumeName(s[1..]);
      ([s[0]] + v, rest)
    else if StartsValidEscape(s) then
      var (c, after) := ConsumeEscape(s[1..]);
      var (v, rest) := ConsumeName(after);
      ([c] + v, rest)
    else ([], s)
  }

  datatype SelectorRead = Selects(value: string) | SyntaxError

  /** `#` followed by `sel`: an id selector needs a hash token whose value is an
      identifier, followed by nothing but white space. */
  function ReadIdSelector(sel: string): SelectorRead {
    var s := Preprocess(sel);
    if !StartsIdentifier(s) then SyntaxError
    else
      var (v, rest) := ConsumeName(s);
      if AllCssWhitespace(rest) then Selects(v) else SyntaxError
  }

  datatype StringRead = Str(value: string, rest: string) | BadString

  /** Reads a string token whose opening `"` has been consumed. */
  function ConsumeString(s: string): (r: StringRead)
    ensures r.Str? ==> |r.rest| <= |s|
    decreases |s|
  {
    if s == [] then Str([], [])
    else if s[0] == '"' then Str([], s[1..])
    else if IsNewline(s[0]) then BadString
    else if s[0] == '\\' then
      if |s| == 1 then ConsumeString(s[1..])
      else if IsNewline(s[1]) then ConsumeString(s[2..])
      else
        var (c, after) := ConsumeEscape(s[1..]);
        match ConsumeString(after)
        case Str(v, rest) => Str([c] + v, rest)
        case BadString => BadString
    else
      match ConsumeString(s[1..])
      case Str(v, rest) => Str([s[0]] + v, rest)
      case BadString => BadString
  }

  /** `[name="` followed by `name` and `"]`: the string token must be followed by the
      closing bracket alone, or by nothing when an escape swallowed the closing quote
      and the end of the selector closes both the string and the bracket. */
  function ReadNameSelector(name: string): SelectorRead {
    match ConsumeString(Preprocess(name + "\"]"))
    case Str(v, rest) => if rest == "]" || rest == [] then Selects(v) else SyntaxError
    case BadString => SyntaxError
  }

  // ---------------------------------------------------------------------------
  // What the escaper guarantees to the selector engine

  /** Characters the escaper makes safe inside an identifier. */
  predicate Escapable(c: char) {
    IsNameChar(c) || IsReserved(c)
  }

  /** Escaping a string of escapable characters adds only backslashes, so the
      result holds no character that preprocessing would change. */
  lemma {:induction false} EscapeStaysClean(s: string)
    requires forall i :: 0 <= i < |s| ==> Escapable(s[i])
    ensures forall i :: 0 <= i < |Escape(s)| ==> Unprocessed(Escape(s)[i])
  {
    if s != [] {
      EscapeStaysClean(s[1..]);
      assert Escapable(s[0]);
      var head := if IsReserved(s[0]) then ['\\', s[0]] else [s[0]];
      assert forall i :: 0 <= i < |head| ==> Unprocessed(head[i]);
      assert Escape(s) == head + Escape(s[1..]);
    }
  }

  /** Preprocessing leaves an escaped string of escapable characters alone. */
  lemma EscapeUnchangedByPreprocess(s: string)
    requires forall i :: 0 <= i < |s| ==> Escapable(s[i])
    ensures Preprocess(Escape(s)) == Escape(s)
  {
    EscapeStaysClean(s);
    PreprocessClean(Escape(s));
  }

  /** An escaped reserved character is read back as that character. */
  lemma ConsumeNameEscapedStep(c: char, tail: string)
    requires IsReserved(c)
    ensures ConsumeName(['\\', c] + tail) == ([c] + ConsumeName(tail).0, ConsumeName(tail).1)
  {
    var e := ['\\', c] + tail;
    assert e[1..] == [c] + tail && ([c] + tail)[1..] == tail;
    assert ConsumeEscape(e[1..]) == (c, tail);
  }

  /** A name character is read back as itself. */
  lemma ConsumeNamePlainStep(c: char, tail: string)
    requires IsNameChar(c)
    ensures ConsumeName([c] + tail) == ([c] + ConsumeName(tail).0, ConsumeName(tail).1)
  {
    assert ([c] + tail)[1..] == tail;
  }

  /** The escaped form of a string of escapable characters is one name that reads
      back as the string. */
  lemma {:induction false} ConsumeNameOfEscape(s: string)
    requires forall i :: 0 <= i < |s| ==> Escapable(s[i])
    ensures ConsumeName(Escape(s)) == (s, [])
  {
    if s != [] {
      ConsumeNameOfEscape(s[1..]);
      if IsReserved(s[0]) {
        assert Escape(s) == ['\\', s[0]] + Escape(s[1..]);
        ConsumeNameEscapedStep(s[0], Escape(s[1..]));
      } else {
        assert Escape(s) == [s[0]] + Escape(s[1..]);
        ConsumeNamePlainStep(s[0], Escape(s[1..]));
      }
      assert s == [s[0]] + s[1..];
    }
  }

  /** A character that, once escaped, starts an identifier: an identifier start, or
      a reserved character, which escaping turns into a valid escape. */
  predicate EscapedStart(c: char) {
    IsIdentStart(c) || IsReserved(c)
  }

  /** An id whose escaped form starts an identifier: it starts with an escaped start,
      or with a hyphen followed by an escaped start or a second hyphen. */
  predicate EscapedIdStart(id: string) {
    id != [] &&
    (EscapedStart(id[0]) || (id[0] == '-' && |id| >= 2 && (EscapedStart(id[1]) || id[1] == '-')))
  }

  /** The escaped form of a non-empty escapable string starts with the first
      character, or with a backslash before it when it is reserved. */
  lemma EscapeHead(s: string)
    requires s != []
    ensures Escape(s) == (if IsReserved(s[0]) then ['\\', s[0]] else [s[0]]) + Escape(s[1..])
  {
  }

  /** The escaped form of an id with an escaped identifier start starts an
      identifier. */
  lemma EscapeStartsIdentifier(id: string)
    requires EscapedIdStart(id)
    ensures StartsIdentifier(Escape(id))
  {
    var e := Escape(id);
    EscapeHead(id);
    if EscapedStart(id[0]) {
      if IsReserved(id[0]) {
        assert StartsValidEscape(e);
      }
    } else {
      var tail := id[1..];
      EscapeHead(tail);
      assert e == ['-'] + Escape(tail);
      assert e[1..] == Escape(tail);
      if IsReserved(tail[0]) {
        assert StartsValidEscape(e[1..]);
      } else {
        assert e[1] == tail[0];
      }
    }
  }

  /** Text that preprocessing keeps, starts an identifier and is one whole name
      is an id selector for that name's value. */
  lemma ReadIdSelectorWhole(sel: string, v: string)
    requires Preprocess(sel) == sel && StartsIdentifier(sel) && ConsumeName(sel) == (v, [])
    ensures ReadIdSelector(sel) == Selects(v)
  {
  }

  /** An id made only of name characters and reserved characters, whose escaped form
      starts an identifier, is read back from that form exactly: the escaped
      selector selects the element with that id. */
  lemma IdSelectorRoundTrip(id: string)
    requires forall i :: 0 <= i < |id| ==> Escapable(id[i])
    requires EscapedIdStart(id)
    ensures ReadIdSelector(Escape(id)) == Selects(id)
  {
    ConsumeNameOfEscape(id);
    EscapeUnchangedByPreprocess(id);
    EscapeStartsIdentifier(id);
    ReadIdSelectorWhole(Escape(id), id);
  }

  /** An id starting with a digit is not an identifier: `querySelector` throws on
      the selector the script builds for it. */
  lemma IdSelectorDigitStart(id: string)
    requires id != [] && '0' <= id[0] <= '9'
    ensures ReadIdSelector(Escape(id)) == SyntaxError
  {
    var e := Escape(id);
    assert e == [id[0]] + Escape(id[1..]);
    PreprocessHead(e);
    var t := Preprocess(e);
    assert t != [] && t[0] == id[0];
    assert !StartsIdentifier(t);
  }

  /** A backslash is not escaped, so the engine reads it as the start of an escape:
      the id `a\\b` is looked up as `a` followed by U+000B. */
  lemma IdSelectorBackslash()
    ensures ReadIdSelector(Escape("a\\b")) == Selects("a\U{B}")
  {
    EscapeNoReserved("a\\b");
    PreprocessClean("a\\b");
    ConsumeNameHexEscape();
    ConsumeNamePlainStep('a', "\\b");
    assert "a\\b" == ['a'] + "\\b";
    assert ['a'] + "\U{B}" == "a\U{B}";
  }

  /** `\b` is the escape of the hexadecimal value 11. */
  lemma ConsumeNameHexEscape()
    ensures ConsumeName("\\b") == ("\U{B}", [])
  {
    var e := "\\b";
    assert e[0] == '\\' && !IsNameChar(e[0]) && e[1..] == "b" && StartsValidEscape(e);
    assert ConsumeHexDigits([], 5, 11) == (11, []);
    assert CodePointChar(11) == '\U{B}';
    assert IsHexDigit('b') && HexValue('b') == 11 && "b"[1..] == [];
    assert ConsumeEscape(e[1..]) == ('\U{B}', []);
    assert ConsumeName([]) == ([], []);
    assert ['\U{B}'] + [] == "\U{B}";
  }

  lemma {:induction false} ConsumeStringPlain(name: string, tail: string)
    requires forall i :: 0 <= i < |name| ==> name[i] != '"' && name[i] != '\\' && !IsNewline(name[i])
    ensures ConsumeString(name + "\"" + tail) == Str(name, tail)
  {
    if name == [] {
      assert name + "\"" + tail == "\"" + tail;
    } else {
      assert (name + "\"" + tail)[1..] == name[1..] + "\"" + tail;
      ConsumeStringPlain(name[1..], tail);
      assert name == [name[0]] + name[1..];
    }
  }

  /** A name with no quote, backslash or newline is read back as its preprocessed
      text: itself when it holds no U+0000 (PreprocessClean), and otherwise the name
      with each U+0000 replaced by U+FFFD (PreprocessNoNewline). */
  lemma NameSelectorRoundTrip(name: string)
    requires forall i :: 0 <= i < |name| ==> name[i] != '"' && name[i] != '\\' && !IsNewline(name[i])
    ensures ReadNameSelector(name) == Selects(Preprocess(name))
  {
    var t := Preprocess(name);
    PlainStaysPlain(name);
    ConsumeStringPlain(t, "]");
    calc {
      ConsumeString(Preprocess(name + "\"]"));
      == { PreprocessCloseQuote(name); }
      ConsumeString(t + "\"]");
      == { assert t + "\"]" == t + "\"" + "]"; }
      Str(t, "]");
    }
  }

  /** The closing quote and bracket the script appends come through preprocessing
      unchanged. */
  lemma PreprocessCloseQuote(x: string)
    ensures Preprocess(x + "\"]") == Preprocess(x) + "\"]"
  {
    PreprocessConcat(x, "\"]");
    PreprocessClean("\"]");
  }

  /** Preprocessing text without quote, backslash or newline adds none of them. */
  lemma PlainStaysPlain(name: string)
    requires forall i :: 0 <= i < |name| ==> name[i] != '"' && name[i] != '\\' && !IsNewline(name[i])
    ensures forall i :: 0 <= i < |Preprocess(name)| ==>
      Preprocess(name)[i] != '"' && Preprocess(name)[i] != '\\' && !IsNewline(Preprocess(name)[i])
  {
    PreprocessNoNewline(name);
  }

  /** The browser reads the NUL of a name as U+FFFD, so the name step looks for a
      different name than the field's own. */
  lemma NameSelectorNul()
    ensures ReadNameSelector("a\0") == Selects("a\U{FFFD}")
  {
    NameSelectorRoundTrip("a\0");
    PreprocessNoNewline("a\0");
  }

  /** A quote inside the name ends the string early; what follows it is not a
      closing bracket, so `querySelector` throws. */
  lemma NameSelectorQuote(name: string, k: nat)
    requires k < |name| && name[k] == '"'
    requires forall i :: 0 <= i < k ==> name[i] != '\\' && !IsNewline(name[i])
    requires forall i :: 0 <= i < k ==> name[i] != '"'
    ensures ReadNameSelector(name) == SyntaxError
  {
    var before, after := name[..k], name[k + 1..];
    var tail := "\"" + (after + "\"]");
    assert name + "\"]" == before + tail;
    PreprocessConcat(before, tail);
    assert Preprocess(tail) == "\"" + Preprocess(after + "\"]") by {
      assert tail[1..] == after + "\"]";
    }
    PreprocessCloseQuote(after);
    PreprocessNoNewline(before);
    var rest := Preprocess(after) + "\"]";
    assert Preprocess(name + "\"]") == Preprocess(before) + "\"" + rest;
    ConsumeStringPlain(Preprocess(before), rest);
    assert |rest| >= 2 && rest[|rest| - 2] == '"';
  }

  /** A name ending in a backslash escapes the closing quote the script appends: the
      string then runs to the end of the selector, which closes it and the bracket,
      so the selector asks for the name followed by `"]`. */
  lemma NameSelectorTrailingBackslash()
    ensures ReadNameSelector("a\\") == Selects("a\"]")
  {
    var sel := "a\\\"]";
    assert "a\\" + "\"]" == sel;
    PreprocessClean(sel);
    assert ConsumeString([]) == Str([], []);
    assert ConsumeString("]") == Str("]", []) by { assert "]"[1..] == []; }
    assert ConsumeEscape("\"]") == ('"', "]") by { assert "\"]"[1..] == "]"; }
    assert ConsumeString("\\\"]") == Str("\"]", []) by {
      assert "\\\"]"[1..] == "\"]";
    }
    assert ConsumeString(sel) == Str("a\"]", []) by { assert sel[1..] == "\\\"]"; }
  }
}
