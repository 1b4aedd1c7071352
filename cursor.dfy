/**
 * The character cursor of the base org.json JSONTokener that the lenient reader extends:
 * `next` past the end yields NUL and still advances, `back` steps one character back,
 * `nextClean` skips characters up to U+0020, `nextString` reads a quoted string with its
 * escapes. A NUL character inside the text behaves like the end.
 */
module Cursor {
  import opened Values

  /** The character at index i, NUL at and past the end. */
  function CharAt(src: string, i: nat): char {
    if i < |src| then src[i] else 0 as char
  }

  /** A syntax error raised by the tokener at a cursor position. */
  function SyntaxErr<T>(msg: string, pos: nat): Result<T> {
    Err(Exception(SyntaxError(pos), Some(msg)))
  }

  /**
   * nextClean(): the first character at or after `pos` that is NUL or above U+0020, and the
   * position just after it.
   */
  function CleanAt(src: string, pos: nat): (r: (char, nat))
    requires pos <= |src|
    ensures pos < r.1 <= |src| + 1
    ensures r.0 == CharAt(src, r.1 - 1)
    ensures r.0 != 0 as char ==> r.1 <= |src|
    decreases |src| - pos
  {
    var c := CharAt(src, pos);
    if c == 0 as char || c > ' ' then (c, pos + 1) else CleanAt(src, pos + 1)
  }

  /** nextClean returns NUL or a visible character, and skips only characters up to U+0020. */
  lemma {:induction false} CleanAtSkipsBlanks(src: string, pos: nat)
    requires pos <= |src|
    ensures var r := CleanAt(src, pos);
      && (r.0 == 0 as char || r.0 > ' ')
      && forall i :: pos <= i < r.1 - 1 ==> 0 as char < CharAt(src, i) <= ' '
    decreases |src| - pos
  {
    var c := CharAt(src, pos);
    if !(c == 0 as char || c > ' ') {
      CleanAtSkipsBlanks(src, pos + 1);
    }
  }

  /** The characters that end an unquoted token: the control characters and `,:]}/\"[{;=#`. */
  predicate StopsToken(c: char) {
    c < ' ' || c in ",:]}/\\\"[{;=#"
  }

  /** Where the unquoted token starting at `start` ends: at the first character that stops it. */
  function TokenEnd(src: string, start: nat): (j: nat)
    requires start <= |src|
    ensures start <= j <= |src|
    decreases |src| - start
  {
    if StopsToken(CharAt(src, start)) then start else TokenEnd(src, start + 1)
  }

  /** The token ends at a stopping character, and none comes before it. */
  lemma {:induction false} TokenEndStops(src: string, start: nat)
    requires start <= |src|
    ensures var j := TokenEnd(src, start);
      StopsToken(CharAt(src, j)) && forall i :: start <= i < j ==> !StopsToken(src[i])
    decreases |src| - start
  {
    if !StopsToken(CharAt(src, start)) {
      TokenEndStops(src, start + 1);
    }
  }

  /** next(n): the next n characters; reaching the end first is a syntax error. */
  function TakeFrom(src: string, pos: nat, n: nat, acc: string): (r: Result<(string, nat)>)
    requires pos <= |src|
    ensures r.Ok? <==> forall i :: pos <= i < pos + n ==> CharAt(src, i) != 0 as char
    ensures r.Ok? ==> pos + n <= |src| && r.value == (acc + src[pos..pos + n], pos + n)
    ensures r.Err? ==> r.error.kind.SyntaxError? && r.error.message == Some("Substring bounds error")
    decreases n
  {
    if n == 0 then assert acc + src[pos..pos] == acc; Ok((acc, pos))
    else
      var c := CharAt(src, pos);
      if c == 0 as char then SyntaxErr("Substring bounds error", pos + 1)
      else
        var r := TakeFrom(src, pos + 1, n - 1, acc + [c]);
        assert r.Ok? ==> acc + [c] + src[pos + 1..pos + n] == acc + src[pos..pos + n] by {
          if r.Ok? {
            assert src[pos..pos + n] == [c] + src[pos + 1..pos + n];
          }
        }
        r
  }

  /** The character `(char) code` for an int code; a lone surrogate stands in as U+FFFD. */
  function CharOfCode(code: int): char {
    var u := code % 0x1_0000;
    if 0xD800 <= u < 0xE000 then 0xFFFD as char else u as char
  }

  /** The character an escape `\d` stands for, when d is one of `b t n f r " ' \ /`. */
  function SimpleEscape(d: char): Option<char> {
    if d == 'b' then Some(8 as char)
    else if d == 't' then Some('\t')
    else if d == 'n' then Some('\n')
    else if d == 'f' then Some(12 as char)
    else if d == 'r' then Some('\r')
    else if d == '"' || d == '\'' || d == '\\' || d == '/' then Some(d)
    else None
  }

  /**
   * nextString after the opening quote: the characters up to the closing `quote`, with
   * escapes resolved, and the position after the closing quote. The end of the text, a
   * newline or a carriage return before it is "Unterminated string".
   */
  function StringFrom(src: string, pos: nat, quote: char, acc: string): (r: Result<(string, nat)>)
    requires pos <= |src|
    ensures r.Ok? ==> pos < r.value.1 <= |src|
    ensures r.Err? ==> r.error.kind.SyntaxError? || r.error.kind == NumberFormatException
    decreases |src| - pos
  {
    var c := CharAt(src, pos);
    if c == 0 as char || c == '\n' || c == '\r' then SyntaxErr("Unterminated string", pos + 1)
    else if c == '\\' then
      var d := CharAt(src, pos + 1);
      if d == 'u' then
        match TakeFrom(src, pos + 2, 4, "")
        case Err(e) => Err(e)
        case Ok((hex, p)) =>
          match ParseInteger(hex, 16, W32)
          case Err(e) => Err(e)
          case Ok(code) => StringFrom(src, p, quote, acc + [CharOfCode(code)])
      else
        match SimpleEscape(d)
        case None => SyntaxErr("Illegal escape.", pos + 2)
        case Some(x) => StringFrom(src, pos + 2, quote, acc + [x])
    else if c == quote then Ok((acc, pos + 1))
    else StringFrom(src, pos + 1, quote, acc + [c])
  }

  /** A successful read ends just after a closing `quote` and returns text starting with `acc`. */
  predicate EndsAtQuote(r: Result<(string, nat)>, src: string, quote: char, acc: string) {
    r.Ok? ==> 0 < r.value.1 <= |src| && src[r.value.1 - 1] == quote && |acc| <= |r.value.0| && r.value.0[..|acc|] == acc
  }

  /**
   * A string read successfully ends just after a closing `quote`, and what was read before
   * starting is the start of the text returned.
   */
  lemma {:induction false} StringFromEndsAtQuote(src: string, pos: nat, quote: char, acc: string)
    requires pos <= |src|
    ensures EndsAtQuote(StringFrom(src, pos, quote, acc), src, quote, acc)
    decreases |src| - pos
  {
    var c := CharAt(src, pos);
    if c == 0 as char || c == '\n' || c == '\r' {
    } else if c == '\\' {
      if CharAt(src, pos + 1) == 'u' {
        var hex := TakeFrom(src, pos + 2, 4, "");
        if hex.Ok? && ParseInteger(hex.value.0, 16, W32).Ok? {
          var x := CharOfCode(ParseInteger(hex.value.0, 16, W32).value);
          ReadsUnicode(src, pos, acc, quote);
          StringFromEndsAtQuote(src, pos + 6, quote, acc + [x]);
          EndsAtQuoteShrinks(StringFrom(src, pos + 6, quote, acc + [x]), src, quote, acc, x);
        }
      } else if SimpleEscape(CharAt(src, pos + 1)).Some? {
        var x := SimpleEscape(CharAt(src, pos + 1)).value;
        ReadsSimpleEscape(src, pos, acc, quote, x);
        StringFromEndsAtQuote(src, pos + 2, quote, acc + [x]);
        EndsAtQuoteShrinks(StringFrom(src, pos + 2, quote, acc + [x]), src, quote, acc, x);
      }
    } else if c != quote {
      ReadsPlain(src, pos, acc, quote);
      StringFromEndsAtQuote(src, pos + 1, quote, acc + [c]);
      EndsAtQuoteShrinks(StringFrom(src, pos + 1, quote, acc + [c]), src, quote, acc, c);
    }
  }

  /**
   * Plain characters followed by the end of the text, a newline or a carriage return are
   * "Unterminated string", reported one past where the string broke off.
   */
  lemma {:induction false} UnterminatedString(src: string, pos: nat, quote: char, acc: string, j: nat)
    requires pos <= j <= |src|
    requires forall i :: pos <= i < j ==> Plain(src[i], quote)
    requires var c := CharAt(src, j); c == 0 as char || c == '\n' || c == '\r'
    ensures StringFrom(src, pos, quote, acc) == SyntaxErr("Unterminated string", j + 1)
    decreases j - pos
  {
    if pos < j {
      assert CharAt(src, pos) == src[pos] && Plain(src[pos], quote);
      UnterminatedString(src, pos + 1, quote, acc + [src[pos]], j);
    }
  }

  /** What starts with `acc + [x]` starts with `acc`. */
  lemma EndsAtQuoteShrinks(r: Result<(string, nat)>, src: string, quote: char, acc: string, x: char)
    requires EndsAtQuote(r, src, quote, acc + [x])
    ensures EndsAtQuote(r, src, quote, acc)
  {
    if r.Ok? {
      assert r.value.0[..|acc|] == (acc + [x])[..|acc|];
    }
  }

  /** A character that needs neither an escape nor ends a string delimited by `quote`. */
  predicate Plain(c: char, quote: char) {
    c != 0 as char && c != '\n' && c != '\r' && c != '\\' && c != quote
  }

  /** A string without escapes reads back as exactly its characters, up to the closing quote. */
  lemma {:induction false} PlainStringReadsBack(src: string, pos: nat, quote: char, acc: string, j: nat)
    requires quote == '"' || quote == '\''
    requires pos <= j < |src| && src[j] == quote
    requires forall i :: pos <= i < j ==> Plain(src[i], quote)
    ensures StringFrom(src, pos, quote, acc) == Ok((acc + src[pos..j], j + 1))
    decreases j - pos
  {
    assert CharAt(src, pos) == src[pos];
    if pos < j {
      assert Plain(src[pos], quote);
      PlainStringReadsBack(src, pos + 1, quote, acc + [src[pos]], j);
      assert acc + [src[pos]] + src[pos + 1..j] == acc + src[pos..j];
    } else {
      assert acc + src[pos..j] == acc;
    }
  }

  /** A lower-case hexadecimal digit reads back as its value. */
  lemma HexDigitValue(n: nat)
    requires n < 16
    ensures DigitValue(HexDigit(n), 16) == Some(n)
  {
  }

  /** The four hexadecimal digits `00XY` that quote writes for a control character parse back to its code. */
  lemma ParseControlCode(c: char)
    requires c < ' '
    ensures ParseInteger("00" + [HexDigit(c as nat / 16), HexDigit(c as nat % 16)], 16, W32) == Ok(c as int)
  {
    var h1, h2 := c as nat / 16, c as nat % 16;
    var t := "00" + [HexDigit(h1), HexDigit(h2)];
    HexDigitValue(h1);
    HexDigitValue(h2);
    assert "0"[..0] == "" && "00"[..1] == "0";
    assert Digits("00", 16) == Some(0);
    var t3 := "00" + [HexDigit(h1)];
    assert t3[..2] == "00" && t3[2] == HexDigit(h1);
    assert Digits(t3, 16) == Some(h1);
    assert t[..3] == t3 && t[3] == HexDigit(h2);
    assert Digits(t, 16) == Some(h1 * 16 + h2);
  }

  /** A plain character is read as itself. */
  lemma ReadsPlain(src: string, pos: nat, acc: string, quote: char)
    requires pos < |src| && Plain(src[pos], quote)
    ensures StringFrom(src, pos, quote, acc) == StringFrom(src, pos + 1, quote, acc + [src[pos]])
  {
  }

  /** A backslash and a character other than `u` is read as the character SimpleEscape gives. */
  lemma ReadsSimpleEscape(src: string, pos: nat, acc: string, quote: char, x: char)
    requires pos + 1 < |src| && src[pos] == '\\' && src[pos + 1] != 'u' && SimpleEscape(src[pos + 1]) == Some(x)
    ensures StringFrom(src, pos, quote, acc) == StringFrom(src, pos + 2, quote, acc + [x])
  {
  }

  /** A `\u` escape whose four characters are there and parse is read as the character of that code. */
  lemma ReadsUnicode(src: string, pos: nat, acc: string, quote: char)
    requires pos + 2 <= |src| && src[pos] == '\\' && src[pos + 1] == 'u'
    requires TakeFrom(src, pos + 2, 4, "").Ok? && ParseInteger(TakeFrom(src, pos + 2, 4, "").value.0, 16, W32).Ok?
    ensures StringFrom(src, pos, quote, acc)
      == StringFrom(src, pos + 6, quote, acc + [CharOfCode(ParseInteger(TakeFrom(src, pos + 2, 4, "").value.0, 16, W32).value)])
  {
  }

  /** `\u` and four hexadecimal digits are read as the character of that code. */
  lemma ReadsUnicodeEscape(src: string, pos: nat, acc: string, quote: char, code: int)
    requires pos + 6 <= |src| && src[pos] == '\\' && src[pos + 1] == 'u'
    requires forall i :: pos + 2 <= i < pos + 6 ==> src[i] != 0 as char
    requires ParseInteger(src[pos + 2..pos + 6], 16, W32) == Ok(code)
    ensures StringFrom(src, pos, quote, acc) == StringFrom(src, pos + 6, quote, acc + [CharOfCode(code)])
  {
    assert TakeFrom(src, pos + 2, 4, "") == Ok((src[pos + 2..pos + 6], pos + 6)) by {
      assert "" + src[pos + 2..pos + 6] == src[pos + 2..pos + 6];
    }
  }

  /** `e` is one of the three forms nextString reads as the single character `c`. */
  predicate IsEscape(e: string, c: char) {
    (|e| == 1 && e[0] == c && Plain(c, '"'))
    || (|e| == 2 && e[0] == '\\' && e[1] != 'u' && SimpleEscape(e[1]) == Some(c))
    || (|e| == 6 && e[0] == '\\' && e[1] == 'u' && (forall i :: 2 <= i < 6 ==> e[i] != 0 as char)
        && ParseInteger(e[2..], 16, W32) == Ok(c as int) && CharOfCode(c as int) == c)
  }

  /** What quote writes for a character is an escape of that character. */
  lemma EscapeIsEscape(c: char, prev: char)
    ensures IsEscape(Escape(c, prev), c)
  {
    if c != '\\' && c != '"' && c != '/' && c != 8 as char && c != '\t' && c != '\n'
      && c != 12 as char && c != '\r' && c < ' ' {
      ControlEscape(c, prev);
    }
  }

  /** A control character without a short escape is written as `\u00` and two hexadecimal digits. */
  lemma ControlEscape(c: char, prev: char)
    requires c != 8 as char && c != '\t' && c != '\n' && c != 12 as char && c != '\r' && c < ' '
    ensures IsEscape(Escape(c, prev), c)
  {
    var hex := "00" + [HexDigit(c as nat / 16), HexDigit(c as nat % 16)];
    assert Escape(c, prev) == "\\u" + hex;
    ParseControlCode(c);
    UnicodeIsEscape(hex, c);
  }

  /** `\u` and four digits other than NUL that parse to the code of `c` are an escape of `c`. */
  lemma UnicodeIsEscape(hex: string, c: char)
    requires |hex| == 4 && (forall i :: 0 <= i < 4 ==> hex[i] != 0 as char)
    requires ParseInteger(hex, 16, W32) == Ok(c as int) && c as int < 0xD800
    ensures IsEscape("\\u" + hex, c)
  {
    var e := "\\u" + hex;
    assert e[2..] == hex;
    forall i | 2 <= i < 6
      ensures e[i] != 0 as char
    {
      assert e[i] == hex[i - 2];
    }
  }
  /** An escape of `c` at `pos` is read as `c`, and reading goes on right after it. */
  lemma EscapeReadsBack(src: string, pos: nat, acc: string, e: string, c: char)
    requires IsEscape(e, c)
    requires pos + |e| <= |src| && src[pos..pos + |e|] == e
    ensures StringFrom(src, pos, '"', acc) == StringFrom(src, pos + |e|, '"', acc + [c])
  {
    assert src[pos] == e[0] by {
      assert src[pos..pos + |e|][0] == src[pos];
    }
    if |e| == 1 {
      ReadsPlain(src, pos, acc, '"');
    } else {
      assert src[pos + 1] == e[1] by {
        assert src[pos..pos + |e|][1] == src[pos + 1];
      }
      if |e| == 2 {
        ReadsSimpleEscape(src, pos, acc, '"', c);
      } else {
        assert src[pos + 2..pos + 6] == e[2..] by {
          assert src[pos + 2..pos + 6] == src[pos..pos + |e|][2..];
        }
        forall i | pos + 2 <= i < pos + 6
          ensures src[i] != 0 as char
        {
          assert src[i] == e[i - pos];
        }
        ReadsUnicodeEscape(src, pos, acc, '"', c as int);
      }
    }
  }

  /** The texts of `es`, one after another. */
  function Joined(es: seq<string>): string
    decreases |es|
  {
    if |es| == 0 then "" else es[0] + Joined(es[1..])
  }

  /** `es` holds, position by position, an escape of each character of `s`. */
  predicate EscapesOf(es: seq<string>, s: string)
    decreases |s|
  {
    |es| == |s| && (|s| == 0 || (IsEscape(es[0], s[0]) && EscapesOf(es[1..], s[1..])))
  }

  /**
   * Escapes of the characters of `s` followed by a double quote read back as exactly `s`,
   * and the position after that quote.
   */
  lemma EscapesReadBack(src: string, pos: nat, acc: string, es: seq<string>, s: string)
    requires EscapesOf(es, s)
    requires pos + |Joined(es)| < |src| && src[pos..pos + |Joined(es)|] == Joined(es)
    requires src[pos + |Joined(es)|] == '"'
    ensures StringFrom(src, pos, '"', acc) == Ok((acc + s, pos + |Joined(es)| + 1))
  {
    EscapesReadTo(src, pos, acc, es, s, acc + s, pos + |Joined(es)|);
  }

  /** EscapesReadBack, with the text read named `res` and the closing quote's index `end`. */
  lemma {:induction false} EscapesReadTo(src: string, pos: nat, acc: string, es: seq<string>, s: string, res: string, end: nat)
    requires EscapesOf(es, s) && res == acc + s && end == pos + |Joined(es)|
    requires end < |src| && src[pos..end] == Joined(es) && src[end] == '"'
    ensures StringFrom(src, pos, '"', acc) == Ok((res, end + 1))
    decreases |s|
  {
    if |s| == 0 {
      ReadsClosingQuote(src, pos, acc);
      assert acc + s == acc;
    } else {
      EscapesStep(src, pos, acc, es, s);
      EscapesReadTo(src, pos + |es[0]|, acc + [s[0]], es[1..], s[1..], res, end);
    }
  }

  /** A double quote ends the string, with what was read so far. */
  lemma ReadsClosingQuote(src: string, pos: nat, acc: string)
    requires pos < |src| && src[pos] == '"'
    ensures StringFrom(src, pos, '"', acc) == Ok((acc, pos + 1))
  {
  }

  /** One step of EscapesReadTo: the first escape is read, and the rest follows it. */
  lemma EscapesStep(src: string, pos: nat, acc: string, es: seq<string>, s: string)
    requires EscapesOf(es, s) && |s| > 0
    requires pos + |Joined(es)| < |src| && src[pos..pos + |Joined(es)|] == Joined(es)
    ensures EscapesOf(es[1..], s[1..])
    ensures pos + |Joined(es)| == pos + |es[0]| + |Joined(es[1..])|
    ensures src[pos + |es[0]|..pos + |Joined(es)|] == Joined(es[1..])
    ensures StringFrom(src, pos, '"', acc) == StringFrom(src, pos + |es[0]|, '"', acc + [s[0]])
    ensures acc + s == acc + [s[0]] + s[1..]
  {
    SliceParts(src, pos, es[0], Joined(es[1..]));
    assert IsEscape(es[0], s[0]);
    EscapeReadsBack(src, pos, acc, es[0], s[0]);
  }

  /** The body quote writes for `s` is an escape of each character of `s` in turn. */
  lemma {:induction false} QuoteBodyEscapes(s: string, prev: char) returns (es: seq<string>)
    ensures EscapesOf(es, s) && Joined(es) == QuoteBody(s, prev)
    decreases |s|
  {
    if |s| == 0 {
      es := [];
    } else {
      EscapeIsEscape(s[0], prev);
      var rest := QuoteBodyEscapes(s[1..], s[0]);
      es := [Escape(s[0], prev)] + rest;
      assert es[1..] == rest;
    }
  }

  /** A text found at `pos` is its first part there and its second part right after. */
  lemma SliceParts(src: string, pos: nat, e: string, q: string)
    requires pos + |e + q| <= |src| && src[pos..pos + |e + q|] == e + q
    ensures src[pos..pos + |e|] == e && src[pos + |e|..pos + |e| + |q|] == q
  {
    assert src[pos..pos + |e|] == src[pos..pos + |e + q|][..|e|];
    assert src[pos + |e|..pos + |e| + |q|] == src[pos..pos + |e + q|][|e|..];
  }

  /** The text quote writes, read from just after its opening quote, is the original text. */
  lemma QuoteReadsBack(s: string, rest: string)
    ensures StringFrom(Quote(s) + rest, 1, '"', "") == Ok((s, |Quote(s)|))
  {
    var es := QuoteBodyEscapes(s, ' ');
    var t := Quote(s) + rest;
    QuotedParts(Joined(es), rest);
    EscapesReadBack(t, 1, "", es, s);
    assert "" + s == s;
  }

  /** In a quoted body followed by more text, the body starts at 1 and its closing quote follows it. */
  lemma QuotedParts(b: string, rest: string)
    ensures var t := "\"" + b + "\"" + rest; |t| > 1 + |b| && t[1..1 + |b|] == b && t[1 + |b|] == '"'
  {
    var t := "\"" + b + "\"" + rest;
    assert t[1..1 + |b|] == b;
  }

  /** The text cursor of a tokener. */
  class Tokener {
    const src: string
    var pos: nat

    constructor (src: string)
      ensures this.src == src && pos == 0
    {
      this.src := src;
      pos := 0;
    }

    /** next(). */
    method Next() returns (c: char)
      modifies this
      ensures c == CharAt(src, old(pos)) && pos == old(pos) + 1
    {
      c := CharAt(src, pos);
      pos := pos + 1;
    }

    /** back(). */
    method Back()
      requires pos > 0
      modifies this
      ensures pos == old(pos) - 1
    {
      pos := pos - 1;
    }

    /** nextClean(). */
    method NextClean() returns (c: char)
      requires pos <= |src|
      modifies this
      ensures (c, pos) == CleanAt(src, old(pos))
    {
      while true
        invariant old(pos) <= pos <= |src|
        invariant CleanAt(src, pos) == CleanAt(src, old(pos))
        decreases |src| - pos
      {
        c := Next();
        if c == 0 as char || c > ' ' {
          return;
        }
      }
    }

    /** next(n) of the `\u` escape. */
    method NextN(n: nat) returns (r: Result<string>)
      requires pos <= |src|
      modifies this
      ensures var t := TakeFrom(src, old(pos), n, "");
        (r.Ok? <==> t.Ok?) && (r.Ok? ==> (r.value, pos) == t.value) && (r.Err? ==> r.error == t.error)
    {
      var chars := "";
      var k := 0;
      while k < n
        invariant 0 <= k <= n && pos == old(pos) + k <= |src| && |chars| == k
        invariant TakeFrom(src, pos, n - k, chars) == TakeFrom(src, old(pos), n, "")
      {
        var c := Next();
        if c == 0 as char {
          return SyntaxErr("Substring bounds error", pos);
        }
        chars := chars + [c];
        k := k + 1;
      }
      r := Ok(chars);
    }

    /** nextString(quote), called just after the opening quote. */
    method NextString(quote: char) returns (r: Result<string>)
      requires pos <= |src|
      modifies this
      ensures var t := StringFrom(src, old(pos), quote, "");
        (r.Ok? <==> t.Ok?) && (r.Ok? ==> (r.value, pos) == t.value) && (r.Err? ==> r.error == t.error)
    {
      var sb := "";
      while true
        invariant pos <= |src|
        invariant StringFrom(src, pos, quote, sb) == StringFrom(src, old(pos), quote, "")
        decreases |src| - pos
      {
        ghost var p0 := pos;
        var c := Next();
        if c == 0 as char || c == '\n' || c == '\r' {
          return SyntaxErr("Unterminated string", pos);
        } else if c == '\\' {
          c := Next();
          if c == 'u' {
            var hex := NextN(4);
            if hex.Err? {
              return Err(hex.error);
            }
            var code := ParseInteger(hex.value, 16, W32);
            if code.Err? {
              return Err(code.error);
            }
            ReadsUnicode(src, p0, sb, quote);
            sb := sb + [CharOfCode(code.value)];
          } else {
            var x := SimpleEscape(c);
            if x.None? {
              return SyntaxErr("Illegal escape.", pos);
            }
            ReadsSimpleEscape(src, p0, sb, quote, x.value);
            sb := sb + [x.value];
          }
        } else if c == quote {
          return Ok(sb);
        } else {
          ReadsPlain(src, p0, sb, quote);
          sb := sb + [c];
        }
      }
    }

    /**
     * The accumulation loop of an unquoted token whose first character `c` was just read:
     * the token's characters, with the character that stopped it pushed back.
     */
    method ReadToken(c: char) returns (token: string)
      requires 0 < pos <= |src| + 1 && c == CharAt(src, pos - 1)
      modifies this
      ensures pos == old(pos) - 1 + |token|
      ensures pos == TokenEnd(src, old(pos) - 1) && token == src[old(pos) - 1..pos]
    {
      var start := pos - 1;
      var ch := c;
      token := "";
      while !StopsToken(ch)
        invariant start < pos <= |src| + 1 && ch == CharAt(src, pos - 1)
        invariant token == src[start..pos - 1]
        invariant TokenEnd(src, start) == TokenEnd(src, pos - 1)
        decreases |src| + 1 - pos
      {
        assert src[start..pos] == src[start..pos - 1] + [src[pos - 1]];
        token := token + [ch];
        ch := Next();
      }
      Back();
    }
  }
}
