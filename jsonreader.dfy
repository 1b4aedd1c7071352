/**
 * The lenient JSON reader of the store engine: JSFJSONTokener.nextValue (strings, objects,
 * arrays and unquoted scalars such as `undefined` and `new Date(...)`), the JSFJSONObject
 * tokener constructor (object grammar, unwrapping of leaves packed in arrays, conversion of
 * string leaves through the column's converter with the label attribute saved and restored)
 * and the base JSONArray reader it reaches through nextValue.
 *
 * The reading is given twice: as functions over a reader state (the specification), and as
 * methods over a Tokener cursor, the component and the converter cache, each proved to
 * compute what the functions say. The grammar functions take the conversion of a string
 * leaf as a parameter of the reader; the constructor's own conversion is `Convert`.
 */
module JsonReader {
  import opened Values
  import opened Faces
  import opened ConverterBase
  import opened Cursor

  /** The services and the column descriptors a conversion consults. */
  datatype Columns = Columns(env: Env, convStrings: SMap<SMap<string>>, vbStrings: SMap<string>)

  /** A converted leaf, or the exception of its conversion, with the attributes and caches after it. */
  datatype Leaf = Leaf(r: Result<Value>, attrs: map<string, Value>, conv: ConvState)

  /** What a reading consults and never changes: the text, and how a string leaf under a key is converted. */
  datatype Reader = Reader(src: string, leaf: (string, string, map<string, Value>, ConvState) -> Leaf)

  /** What a reading changes: the cursor, the component's attributes and the converter caches. */
  datatype PState = PState(pos: nat, attrs: map<string, Value>, conv: ConvState)

  /** A value read, or the exception that stopped the reading, and the state after it. */
  datatype POut = POut(r: Result<Value>, st: PState)

  // ---------------------------------------------------------------------------
  // Scalars, keys and separators

  /**
   * The value of an unquoted token: trimmed; empty is "Missing value", `undefined` is null,
   * a 23-character `new Date(...)` is a Date of the 13 characters between the parentheses,
   * and anything else is the trimmed text itself.
   */
  function Scalar(token: string, at: nat): (r: Result<Value>)
    ensures Trim(token) == "" ==> r == SyntaxErr("Missing value", at)
    ensures Trim(token) == "undefined" ==> r == Ok(Null)
    ensures r.Ok? && r.value.Str? ==> r.value.s == Trim(token)
    ensures r.Ok? ==> r.value == Null || r.value.Str? || r.value.Date?
  {
    var s := Trim(token);
    if s == "" then SyntaxErr("Missing value", at)
    else if s == "undefined" then Ok(Null)
    else if StartsWith(s, "new Date(") && EndsWith(s, ")") && |s| == 23 then
      match ParseInteger(s[9..22], 10, W64)
      case Ok(n) => Ok(Date(n))
      case Err(e) => Err(e)
    else Ok(Str(s))
  }

  /** A token is never read as a number or a boolean: `true` and ` 42 ` stay text. */
  lemma ScalarsStayText(at: nat)
    ensures Scalar("true", at) == Ok(Str("true"))
    ensures Scalar(" 42 ", at) == Ok(Str("42"))
  {
    assert TrimLow("true", 0) == 0 && TrimHigh("true", 0, 4) == 4;
    assert Trim("true") == "true"[0..4] == "true";
    assert "true" != "undefined" && !StartsWith("true", "new Date(");
    assert TrimLow(" 42 ", 0) == 1 && TrimHigh(" 42 ", 1, 4) == 3;
    assert Trim(" 42 ") == " 42 "[1..3] == "42";
    assert "42" != "" && "42" != "undefined" && !StartsWith("42", "new Date(");
  }

  /** The 13-digit text of a time stamp inside `new Date(...)` reads back as that time stamp. */
  lemma DateTokenReadsBack(n: nat, at: nat)
    requires |NatText(n)| == 13
    ensures Scalar("new Date(" + NatText(n) + ")", at) == Ok(Date(n))
  {
    TimeStampDigits(n);
    DateTokenReads(NatText(n), n, at);
  }

  /** A time stamp of 13 digits fits a long and its text parses back to it. */
  lemma TimeStampDigits(n: nat)
    requires |NatText(n)| == 13
    ensures ParseInteger(NatText(n), 10, W64) == Ok(n) && NatText(n)[0] > ' '
  {
    TextBelow(n, 13);
    TenToThirteen();
    LongRange();
    ParseDecimalText(n, W64);
  }

  /** A `new Date(...)` token around 13 characters that parse as n is the Date n. */
  lemma DateTokenReads(d: string, n: int, at: nat)
    requires |d| == 13 && d[0] > ' ' && ParseInteger(d, 10, W64) == Ok(n)
    ensures Scalar("new Date(" + d + ")", at) == Ok(Date(n))
  {
    DateTokenShape(d);
    DateTokenParses("new Date(" + d + ")", at);
  }

  /** A trimmed 23-character `new Date(...)` token is the Date of the 13 characters inside. */
  lemma DateTokenParses(s: string, at: nat)
    requires |s| == 23 && Trim(s) == s && StartsWith(s, "new Date(") && EndsWith(s, ")")
    ensures ParseInteger(s[9..22], 10, W64).Ok? ==> Scalar(s, at) == Ok(Date(ParseInteger(s[9..22], 10, W64).value))
  {
    var t := Trim(s);
    assert t != "" && t != "undefined" by {
      assert |t| == 23;
    }
  }

  /** `new Date(` and `)` around 13 characters make a token that trimming leaves as it is. */
  lemma DateTokenShape(d: string)
    requires |d| == 13 && d[0] > ' '
    ensures |"new Date(" + d + ")"| == 23 && ("new Date(" + d + ")")[9..22] == d
    ensures StartsWith("new Date(" + d + ")", "new Date(") && EndsWith("new Date(" + d + ")", ")")
    ensures Trim("new Date(" + d + ")") == "new Date(" + d + ")"
  {
    var s := "new Date(" + d + ")";
    assert s[..9] == "new Date(" && s[22..] == ")";
    assert s[9..22] == d;
    assert TrimLow(s, 0) == 0 && TrimHigh(s, 0, |s|) == |s|;
  }

  /** Powers of ten. */
  function Pow10(k: nat): (r: nat)
    ensures r >= 1
  {
    if k == 0 then 1 else 10 * Pow10(k - 1)
  }

  lemma LongRange()
    ensures MinOf(W64) == -0x8000_0000_0000_0000
  {
  }

  lemma TenToThirteen()
    ensures Pow10(13) == 10_000_000_000_000
  {
    assert Pow10(4) == 10_000;
    assert Pow10(8) == 100_000_000;
  }

  /** A number written with at most k digits is below 10^k. */
  lemma {:induction false} TextBelow(n: nat, k: nat)
    requires |NatText(n)| <= k
    ensures n < Pow10(k)
    decreases n
  {
    if n >= 10 {
      TextBelow(n / 10, k - 1);
    }
  }

  /** `toString()` of a key read by nextValue: a null key is a NullPointerException. */
  function KeyText(v: Value): (r: Result<string>)
    ensures r.Err? <==> v == Null
    ensures v.Str? ==> r == Ok(v.s)
  {
    if v == Null then Fail(NullPointerException, "key is null") else Ok(JavaText(v))
  }

  /**
   * The separator after a key: `:`, `=` or `=>`. The result is where the value starts;
   * anything else is "Expected a ':' after a key".
   */
  function KeySeparator(src: string, pos: nat): (r: Result<nat>)
    requires pos <= |src|
    ensures r.Ok? ==> pos < r.value <= |src|
  {
    var (c, p) := CleanAt(src, pos);
    if c == '=' then
      if CharAt(src, p) != '>' then Ok(p) else Ok(p + 1)
    else if c != ':' then SyntaxErr("Expected a ':' after a key", p)
    else Ok(p)
  }

  /** What follows a member or an element: another one at `pos`, the end at `pos`, or an error. */
  datatype After = More(pos: nat) | Close(pos: nat) | Bad(error: Exception)

  /**
   * The separator after an object member: `,` or `;` (with a `}` right after it closing the
   * object), or `}`; anything else is "Expected a ',' or '}'".
   */
  function PairSeparator(src: string, pos: nat): (r: After)
    requires pos <= |src|
    ensures !r.Bad? ==> pos < r.pos <= |src|
  {
    var (c, p) := CleanAt(src, pos);
    if c == ';' || c == ',' then
      var (d, q) := CleanAt(src, p);
      if d == '}' then Close(q) else More(q - 1)
    else if c == '}' then Close(p)
    else Bad(Exception(SyntaxError(p), Some("Expected a ',' or '}'")))
  }

  /**
   * The separator after an array element: `,` or `;` (with a `]` right after it closing the
   * array), or the closing `]` or `)` matching the opening one.
   */
  function ArraySeparator(src: string, pos: nat, q: char): (r: After)
    requires pos <= |src|
    ensures !r.Bad? ==> pos < r.pos <= |src|
  {
    var (c, p) := CleanAt(src, pos);
    if c == ';' || c == ',' then
      var (d, p2) := CleanAt(src, p);
      if d == ']' then Close(p2) else More(p2 - 1)
    else if c == ']' || c == ')' then
      if q != c then Bad(Exception(SyntaxError(p), Some("Expected a '" + [q] + "'")))
      else Close(p)
    else Bad(Exception(SyntaxError(p), Some("Expected a ',' or ']'")))
  }

  /**
   * A leaf packed in an array: a non-empty array whose first element is a String stands for
   * that String, whatever its length. A null first element is an error of JSONArray.get.
   */
  function Unwrap(v: Value): (r: Result<Value>)
    ensures v.Arr? && |v.elems| > 0 && v.elems[0].Str? ==> r == Ok(v.elems[0])
    ensures v.Arr? && |v.elems| > 0 && v.elems[0] == Null ==> r.Err? && IsJSONException(r.error)
    ensures !(v.Arr? && |v.elems| > 0) ==> r == Ok(v)
    ensures v.Arr? && |v.elems| > 0 && !v.elems[0].Str? && v.elems[0] != Null ==> r == Ok(v)
  {
    if v.Arr? && |v.elems| > 0 then
      match ArrayGet(v.elems, 0)
      case Err(e) => Err(e)
      case Ok(first) => if first.Str? then Ok(first) else Ok(v)
    else Ok(v)
  }

  // ---------------------------------------------------------------------------
  // Conversion of a string leaf

  /** The label the column's converter parameters set, if any. */
  function SpecLabel(convStrings: SMap<SMap<string>>, key: string): Option<string> {
    if key in convStrings.vals && "label" in convStrings.vals[key].vals
    then Some(convStrings.vals[key].vals["label"]) else None
  }

  /** The attributes after a conversion: a previous label put back, or a new label removed. */
  function RestoreLabel(attrs: map<string, Value>, prev: Option<string>, newLabel: Option<string>): map<string, Value> {
    if prev.None? then (if newLabel.Some? then attrs - {"label"} else attrs)
    else attrs["label" := Str(prev.value)]
  }

  /**
   * A string leaf under `key`: with a converter for the column it becomes the converter's
   * getAsObject of the string, computed while the column's label is set on the component;
   * without one it stays the string.
   */
  function Convert(cols: Columns, key: string, s: string, attrs: map<string, Value>, conv: ConvState): Leaf {
    var f := Determine(cols.env, key, cols.convStrings, cols.vbStrings, conv);
    match f.r
    case Err(e) => Leaf(Err(e), attrs, f.st)
    case Ok(None) => Leaf(Ok(Str(s)), attrs, f.st)
    case Ok(Some(c)) =>
      match StringAttr(attrs, "label")
      case Err(e) => Leaf(Err(e), attrs, f.st)
      case Ok(prev) =>
        var newLabel := SpecLabel(cols.convStrings, key);
        var attrs1 := if newLabel.Some? then attrs["label" := Str(newLabel.value)] else attrs;
        match cols.env.toObject(c, attrs1, s)
        case Err(e) => Leaf(Err(e), attrs1, f.st)
        case Ok(v) => Leaf(Ok(v), RestoreLabel(attrs1, prev, newLabel), f.st)
  }

  /** The reader of the JSFJSONObject constructor: its leaves are converted by `Convert`. */
  ghost predicate ConvertsWith(rd: Reader, cols: Columns) {
    forall key, s, attrs, conv :: rd.leaf(key, s, attrs, conv) == Convert(cols, key, s, attrs, conv)
  }

  /** The reader of a text whose leaves are converted for the given columns. */
  function JsfReader(src: string, cols: Columns): (rd: Reader)
    ensures rd.src == src && ConvertsWith(rd, cols)
  {
    Reader(src, (key, s, attrs, conv) => Convert(cols, key, s, attrs, conv))
  }

  /** A conversion that succeeds leaves the label as it found it, and every other attribute untouched. */
  lemma ConvertRestoresLabel(cols: Columns, key: string, s: string, attrs: map<string, Value>, conv: ConvState)
    requires Convert(cols, key, s, attrs, conv).r.Ok?
    ensures var a := Convert(cols, key, s, attrs, conv).attrs;
      && StringAttr(a, "label") == StringAttr(attrs, "label")
      && (forall n :: n != "label" ==> (n in a <==> n in attrs))
      && (forall n :: n != "label" && n in a ==> a[n] == attrs[n])
  {
  }

  /** Without a converter for the column a string leaf stays as it is; with one it is the converter's result. */
  lemma ConvertUsesConverter(cols: Columns, key: string, s: string, attrs: map<string, Value>, conv: ConvState)
    ensures var f := Determine(cols.env, key, cols.convStrings, cols.vbStrings, conv);
      && (f.r == Ok(None) ==> Convert(cols, key, s, attrs, conv).r == Ok(Str(s)))
      && (f.r.Ok? && f.r.value.Some? && StringAttr(attrs, "label").Ok? ==>
            var nl := SpecLabel(cols.convStrings, key);
            Convert(cols, key, s, attrs, conv).r
              == cols.env.toObject(f.r.value.value, if nl.Some? then attrs["label" := Str(nl.value)] else attrs, s))
  {
  }

  // ---------------------------------------------------------------------------
  // Values, objects and arrays

  /** A quoted string after its opening quote, and the position after the closing quote. */
  function QuotedValue(src: string, p: nat, quote: char): (r: Result<(Value, nat)>)
    requires p <= |src|
    ensures r.Ok? ==> p < r.value.1 <= |src| && r.value.0.Str?
  {
    match StringFrom(src, p, quote, "")
    case Err(e) => Err(e)
    case Ok((s, p2)) => Ok((Str(s), p2))
  }

  /** An unquoted value starting at `start`, and the position of the character that ended it. */
  function TokenValue(src: string, start: nat): (r: (Result<Value>, nat))
    requires start <= |src|
    ensures start <= r.1 <= |src|
    ensures r.0.Ok? ==> start < r.1
  {
    var j := TokenEnd(src, start);
    var v := Scalar(src[start..j], j);
    assert v.Ok? ==> j > start by {
      if j == start {
        assert src[start..j] == "";
      }
    }
    (v, j)
  }

  /** nextValue. */
  function ValueF(rd: Reader, st: PState): (o: POut)
    requires st.pos <= |rd.src|
    ensures o.r.Ok? ==> st.pos < o.st.pos <= |rd.src|
    decreases |rd.src| + 1 - st.pos, 2
  {
    var (c, p) := CleanAt(rd.src, st.pos);
    if c == '"' || c == '\'' then
      match QuotedValue(rd.src, p, c)
      case Err(e) => POut(Err(e), st)
      case Ok((v, p2)) => POut(Ok(v), st.(pos := p2))
    else if c == '{' then ObjectF(rd, st.(pos := p - 1))
    else if c == '[' || c == '(' then ArrayF(rd, st.(pos := p - 1))
    else
      var (r, j) := TokenValue(rd.src, p - 1);
      POut(r, st.(pos := j))
  }

  /** The JSFJSONObject constructor over a tokener. */
  function ObjectF(rd: Reader, st: PState): (o: POut)
    requires st.pos <= |rd.src|
    ensures o.r.Ok? ==> st.pos < o.st.pos <= |rd.src| && o.r.value.Obj?
    decreases |rd.src| + 1 - st.pos, 1
  {
    var (c, p) := CleanAt(rd.src, st.pos);
    if c != '{' then POut(SyntaxErr("A JSONObject text must begin with '{'", p), st)
    else Members(rd, st.(pos := p), [])
  }

  /** The member loop of the object constructor; `acc` holds the members read so far. */
  function Members(rd: Reader, st: PState, acc: seq<Field>): (o: POut)
    requires st.pos <= |rd.src|
    ensures o.r.Ok? ==> st.pos < o.st.pos <= |rd.src| && o.r.value.Obj?
    decreases |rd.src| + 1 - st.pos, 4
  {
    var (c, p) := CleanAt(rd.src, st.pos);
    if c == 0 as char then POut(SyntaxErr("A JSONObject text must end with '}'", p), st)
    else if c == '}' then POut(Ok(Obj(acc)), st.(pos := p))
    else MemberKey(rd, st.(pos := p - 1), acc, st.pos)
  }

  /** The member loop at a key: the key is read with nextValue and taken as its toString(). */
  function MemberKey(rd: Reader, st: PState, acc: seq<Field>, start: nat): (o: POut)
    requires start <= st.pos <= |rd.src|
    ensures o.r.Ok? ==> start < o.st.pos <= |rd.src| && o.r.value.Obj?
    decreases |rd.src| + 1 - start, 3
  {
    var k := ValueF(rd, st);
    match k.r
    case Err(_) => k
    case Ok(kv) =>
      match KeyText(kv)
      case Err(e) => POut(Err(e), k.st)
      case Ok(key) => MemberValue(rd, k.st, acc, key, start)
  }

  /** The member loop after the key: the separator, then the member's value. */
  function MemberValue(rd: Reader, st: PState, acc: seq<Field>, key: string, start: nat): (o: POut)
    requires start < st.pos <= |rd.src|
    ensures o.r.Ok? ==> start < o.st.pos <= |rd.src| && o.r.value.Obj?
    decreases |rd.src| + 1 - start, 2
  {
    match KeySeparator(rd.src, st.pos)
    case Err(e) => POut(Err(e), st)
    case Ok(p3) =>
      var v := ValueF(rd, st.(pos := p3));
      match v.r
      case Err(_) => v
      case Ok(raw) => Member(rd, v.st, acc, key, raw, start)
  }

  /** The member loop after a value was read for `key`: unwrap, convert, store, then the separator. */
  function Member(rd: Reader, st: PState, acc: seq<Field>, key: string, raw: Value, start: nat): (o: POut)
    requires start < st.pos <= |rd.src|
    ensures o.r.Ok? ==> start < o.st.pos <= |rd.src| && o.r.value.Obj?
    decreases |rd.src| + 1 - start, 1
  {
    var cv := MemberLeaf(rd, st, key, raw);
    match cv.r
    case Err(_) => cv
    case Ok(val) => Stored(rd, cv.st, Put(acc, key, val), start)
  }

  /**
   * The value stored for a member read as `raw`: unwrapped, and converted when it is a
   * string; the cursor does not move.
   */
  function MemberLeaf(rd: Reader, st: PState, key: string, raw: Value): (o: POut)
    ensures o.st.pos == st.pos
    ensures Unwrap(raw).Ok? && !Unwrap(raw).value.Str? ==> o == POut(Unwrap(raw), st)
  {
    match Unwrap(raw)
    case Err(e) => POut(Err(e), st)
    case Ok(leaf) =>
      if leaf.Str? then
        var l := rd.leaf(key, leaf.s, st.attrs, st.conv);
        POut(l.r, st.(attrs := l.attrs, conv := l.conv))
      else POut(Ok(leaf), st)
  }

  /** The member loop after a member was stored: the pair separator, then the next member or the end. */
  function Stored(rd: Reader, st: PState, fields: seq<Field>, start: nat): (o: POut)
    requires start < st.pos <= |rd.src|
    ensures o.r.Ok? ==> start < o.st.pos <= |rd.src| && o.r.value.Obj?
    decreases |rd.src| + 1 - start, 0
  {
    match PairSeparator(rd.src, st.pos)
    case Bad(e) => POut(Err(e), st)
    case Close(p5) => POut(Ok(Obj(fields)), st.(pos := p5))
    case More(p5) => Members(rd, st.(pos := p5), fields)
  }

  /** The base JSONArray constructor over a tokener, reading its elements with nextValue. */
  function ArrayF(rd: Reader, st: PState): (o: POut)
    requires st.pos <= |rd.src|
    ensures o.r.Ok? ==> st.pos < o.st.pos <= |rd.src| && o.r.value.Arr?
    decreases |rd.src| + 1 - st.pos, 1
  {
    var (c, p) := CleanAt(rd.src, st.pos);
    if c != '[' && c != '(' then POut(SyntaxErr("A JSONArray text must start with '['", p), st)
    else
      var q := if c == '[' then ']' else ')';
      var (d, p2) := CleanAt(rd.src, p);
      if d == ']' then POut(Ok(Arr([])), st.(pos := p2))
      else Elements(rd, st.(pos := p2 - 1), q, [])
  }

  /** The element loop of the array reader; a `,` where an element belongs is a null element. */
  function Elements(rd: Reader, st: PState, q: char, acc: seq<Value>): (o: POut)
    requires st.pos <= |rd.src|
    ensures o.r.Ok? ==> st.pos < o.st.pos <= |rd.src| && o.r.value.Arr?
    decreases |rd.src| + 1 - st.pos, 4
  {
    var e := ElementValue(rd, st);
    match e.r
    case Err(_) => e
    case Ok(v) => Element(rd, e.st, q, acc + [v], st.pos)
  }

  /** An element of the array reader: a `,` where an element belongs is a null element. */
  function ElementValue(rd: Reader, st: PState): (o: POut)
    requires st.pos <= |rd.src|
    ensures o.r.Ok? ==> st.pos <= o.st.pos <= |rd.src|
    decreases |rd.src| + 1 - st.pos, 3
  {
    var (c, p) := CleanAt(rd.src, st.pos);
    if c == ',' then POut(Ok(Null), st.(pos := p - 1)) else ValueF(rd, st.(pos := p - 1))
  }

  /** The element loop after an element was read: the separator, then the next element or the end. */
  function Element(rd: Reader, st: PState, q: char, elems: seq<Value>, start: nat): (o: POut)
    requires start <= st.pos <= |rd.src|
    ensures o.r.Ok? ==> start < o.st.pos <= |rd.src| && o.r.value.Arr?
    decreases |rd.src| + 1 - start, 0
  {
    match ArraySeparator(rd.src, st.pos, q)
    case Bad(x) => POut(Err(x), st)
    case Close(p5) => POut(Ok(Arr(elems)), st.(pos := p5))
    case More(p5) => Elements(rd, st.(pos := p5), q, elems)
  }

  // ---------------------------------------------------------------------------
  // Properties of the reading

  /**
   * An object read completely has distinct member names (a repeated key keeps its first
   * place and takes the later value) and ends just after a `}`.
   */
  predicate ClosedObject(rd: Reader, o: POut) {
    o.r.Ok? && o.r.value.Obj? && 0 < o.st.pos
    && DistinctNames(o.r.value.fields) && CharAt(rd.src, o.st.pos - 1) == '}'
  }

  lemma {:induction false} ObjectIsClosed(rd: Reader, st: PState)
    requires st.pos <= |rd.src|
    ensures var o := ObjectF(rd, st); o.r.Ok? ==> ClosedObject(rd, o)
  {
    var (c, p) := CleanAt(rd.src, st.pos);
    if c == '{' {
      MembersAreClosed(rd, st.(pos := p), []);
    }
  }

  lemma {:induction false} MembersAreClosed(rd: Reader, st: PState, acc: seq<Field>)
    requires st.pos <= |rd.src| && DistinctNames(acc)
    ensures var o := Members(rd, st, acc); o.r.Ok? ==> ClosedObject(rd, o)
    decreases |rd.src| + 1 - st.pos, 4
  {
    var (c, p) := CleanAt(rd.src, st.pos);
    if c != 0 as char && c != '}' {
      MemberKeyIsClosed(rd, st.(pos := p - 1), acc, st.pos);
    }
  }

  lemma {:induction false} MemberKeyIsClosed(rd: Reader, st: PState, acc: seq<Field>, start: nat)
    requires start <= st.pos <= |rd.src| && DistinctNames(acc)
    ensures var o := MemberKey(rd, st, acc, start); o.r.Ok? ==> ClosedObject(rd, o)
    decreases |rd.src| + 1 - start, 3
  {
    var k := ValueF(rd, st);
    if k.r.Ok? && KeyText(k.r.value).Ok? {
      MemberValueIsClosed(rd, k.st, acc, KeyText(k.r.value).value, start);
    }
  }

  lemma {:induction false} MemberValueIsClosed(rd: Reader, st: PState, acc: seq<Field>, key: string, start: nat)
    requires start < st.pos <= |rd.src| && DistinctNames(acc)
    ensures var o := MemberValue(rd, st, acc, key, start); o.r.Ok? ==> ClosedObject(rd, o)
    decreases |rd.src| + 1 - start, 2
  {
    var s := KeySeparator(rd.src, st.pos);
    if s.Ok? {
      var v := ValueF(rd, st.(pos := s.value));
      if v.r.Ok? {
        MemberIsClosed(rd, v.st, acc, key, v.r.value, start);
      }
    }
  }

  lemma {:induction false} MemberIsClosed(rd: Reader, st: PState, acc: seq<Field>, key: string, raw: Value, start: nat)
    requires start < st.pos <= |rd.src| && DistinctNames(acc)
    ensures var o := Member(rd, st, acc, key, raw, start); o.r.Ok? ==> ClosedObject(rd, o)
    decreases |rd.src| + 1 - start, 1
  {
    var cv := MemberLeaf(rd, st, key, raw);
    if cv.r.Ok? {
      PutKeepsDistinct(acc, key, cv.r.value);
      StoredIsClosed(rd, cv.st, Put(acc, key, cv.r.value), start);
    }
  }

  lemma {:induction false} StoredIsClosed(rd: Reader, st: PState, fields: seq<Field>, start: nat)
    requires start < st.pos <= |rd.src| && DistinctNames(fields)
    ensures var o := Stored(rd, st, fields, start); o.r.Ok? ==> ClosedObject(rd, o)
    decreases |rd.src| + 1 - start, 0
  {
    var sep := PairSeparator(rd.src, st.pos);
    if sep.More? {
      MembersAreClosed(rd, st.(pos := sep.pos), fields);
    } else if sep.Close? {
      PairSeparatorCloses(rd.src, st.pos);
    }
  }

  /** A pair separator that closes the object has just read a `}`. */
  lemma PairSeparatorCloses(src: string, pos: nat)
    requires pos <= |src| && PairSeparator(src, pos).Close?
    ensures CharAt(src, PairSeparator(src, pos).pos - 1) == '}'
  {
    var (c, p) := CleanAt(src, pos);
    if c == ';' || c == ',' {
      var (d, q) := CleanAt(src, p);
    }
  }

  /** A quoted string without escapes reads as its characters, and the cursor stops after the closing quote. */
  lemma QuotedStringReads(rd: Reader, st: PState, j: nat)
    requires st.pos <= |rd.src|
    requires var (c, p) := CleanAt(rd.src, st.pos);
      && (c == '"' || c == '\'') && p <= j < |rd.src| && rd.src[j] == c
      && forall i :: p <= i < j ==> Plain(rd.src[i], c)
    ensures var p := CleanAt(rd.src, st.pos).1;
      ValueF(rd, st) == POut(Ok(Str(rd.src[p..j])), st.(pos := j + 1))
  {
    var (c, p) := CleanAt(rd.src, st.pos);
    PlainStringReadsBack(rd.src, p, c, "", j);
    assert "" + rd.src[p..j] == rd.src[p..j];
  }

  /**
   * The first visible character decides the kind of a value: `{` an object, `[` or `(` an
   * array, anything else a string, a null or a Date.
   */
  lemma ValueKinds(rd: Reader, st: PState)
    requires st.pos <= |rd.src|
    ensures var c := CleanAt(rd.src, st.pos).0; var o := ValueF(rd, st);
      o.r.Ok? ==>
        && (o.r.value.Obj? <==> c == '{')
        && (o.r.value.Arr? <==> c == '[' || c == '(')
        && (c != '{' && c != '[' && c != '(' ==> o.r.value.Str? || o.r.value == Null || o.r.value.Date?)
  {
  }

  /** `{}` and `{ }` are the empty object. */
  lemma EmptyObjectReads(leaf: (string, string, map<string, Value>, ConvState) -> Leaf, st: PState)
    requires st.pos == 0
    ensures ObjectF(Reader("{}", leaf), st) == POut(Ok(Obj([])), st.(pos := 2))
    ensures ObjectF(Reader("{ }", leaf), st) == POut(Ok(Obj([])), st.(pos := 3))
  {
    assert CleanAt("{}", 0) == ('{', 1);
    assert CleanAt("{}", 1) == ('}', 2);
    assert CleanAt("{ }", 0) == ('{', 1);
    assert CleanAt("{ }", 2) == ('}', 3);
  }

  /** Text that ends inside an object is "A JSONObject text must end with '}'". */
  lemma UnterminatedObject(leaf: (string, string, map<string, Value>, ConvState) -> Leaf, st: PState)
    requires st.pos == 0
    ensures ObjectF(Reader("{", leaf), st).r == SyntaxErr("A JSONObject text must end with '}'", 2)
  {
    assert CleanAt("{", 0) == ('{', 1);
    assert CleanAt("{", 1) == (0 as char, 2);
  }

  // ---------------------------------------------------------------------------
  // The reader over a tokener, a component and a converter cache

  /** The reader state held by the objects a reading changes. */
  function StateOf(t: Tokener, comp: UIComponent, cache: ConverterCache): PState
    reads t, comp, cache
  {
    PState(t.pos, comp.attributes, cache.State())
  }

  /**
   * A method's outcome agrees with the specification: the same value or exception, the same
   * attributes and caches, and after a success the same cursor position.
   */
  predicate Agrees(r: Result<Value>, now: PState, o: POut) {
    r == o.r && now.attrs == o.st.attrs && now.conv == o.st.conv && (r.Ok? ==> now.pos == o.st.pos)
  }

  /** JSFJSONTokener.nextValue. */
  method NextValue(t: Tokener, comp: UIComponent, cache: ConverterCache, rd: Reader, cols: Columns) returns (r: Result<Value>)
    requires t.src == rd.src && t.pos <= |t.src| && ConvertsWith(rd, cols)
    modifies t, comp, cache
    ensures Agrees(r, StateOf(t, comp, cache), ValueF(rd, old(StateOf(t, comp, cache))))
    decreases |t.src| + 1 - t.pos, 2
  {
    ghost var head := StateOf(t, comp, cache);
    var c := t.NextClean();
    if c == '"' || c == '\'' {
      r := ReadQuoted(t, c);
      return;
    }
    if c == '{' {
      t.Back();
      assert ValueF(rd, head) == ObjectF(rd, StateOf(t, comp, cache));
      r := ReadObject(t, comp, cache, rd, cols);
      return;
    }
    if c == '[' || c == '(' {
      t.Back();
      assert ValueF(rd, head) == ArrayF(rd, StateOf(t, comp, cache));
      r := ReadArray(t, comp, cache, rd, cols);
      return;
    }
    r := ReadScalar(t, c);
  }

  /** A quoted string value, on the tokener. */
  method ReadQuoted(t: Tokener, quote: char) returns (r: Result<Value>)
    requires t.pos <= |t.src|
    modifies t
    ensures var q := QuotedValue(t.src, old(t.pos), quote);
      && (r.Ok? <==> q.Ok?)
      && (r.Ok? ==> r.value == q.value.0 && t.pos == q.value.1)
      && (r.Err? ==> r.error == q.error)
  {
    var s := t.NextString(quote);
    if s.Err? {
      return Err(s.error);
    }
    r := Ok(Str(s.value));
  }

  /** An unquoted value whose first character `c` was just read, on the tokener. */
  method ReadScalar(t: Tokener, c: char) returns (r: Result<Value>)
    requires 0 < t.pos <= |t.src| + 1 && c == CharAt(t.src, t.pos - 1)
    modifies t
    ensures (r, t.pos) == TokenValue(t.src, old(t.pos) - 1)
  {
    var token := t.ReadToken(c);
    r := Scalar(token, t.pos);
  }

  /** The separator after a key, on the tokener. */
  method SkipKeySeparator(t: Tokener) returns (r: Result<nat>)
    requires t.pos <= |t.src|
    modifies t
    ensures r == KeySeparator(t.src, old(t.pos))
    ensures r.Ok? ==> t.pos == r.value
  {
    var c := t.NextClean();
    if c == '=' {
      c := t.Next();
      if c != '>' {
        t.Back();
      }
    } else if c != ':' {
      return SyntaxErr("Expected a ':' after a key", t.pos);
    }
    r := Ok(t.pos);
  }

  /** The separator after an object member, on the tokener. */
  method ReadPairSeparator(t: Tokener) returns (a: After)
    requires t.pos <= |t.src|
    modifies t
    ensures a == PairSeparator(t.src, old(t.pos))
    ensures !a.Bad? ==> t.pos == a.pos
  {
    var c := t.NextClean();
    if c == ';' || c == ',' {
      c := t.NextClean();
      if c == '}' {
        return Close(t.pos);
      }
      t.Back();
      a := More(t.pos);
    } else if c == '}' {
      a := Close(t.pos);
    } else {
      a := Bad(Exception(SyntaxError(t.pos), Some("Expected a ',' or '}'")));
    }
  }

  /** The separator after an array element, on the tokener. */
  method ReadArraySeparator(t: Tokener, q: char) returns (a: After)
    requires t.pos <= |t.src|
    modifies t
    ensures a == ArraySeparator(t.src, old(t.pos), q)
    ensures !a.Bad? ==> t.pos == a.pos
  {
    var c := t.NextClean();
    if c == ';' || c == ',' {
      c := t.NextClean();
      if c == ']' {
        return Close(t.pos);
      }
      t.Back();
      a := More(t.pos);
    } else if c == ']' || c == ')' {
      if q != c {
        return Bad(Exception(SyntaxError(t.pos), Some("Expected a '" + [q] + "'")));
      }
      a := Close(t.pos);
    } else {
      a := Bad(Exception(SyntaxError(t.pos), Some("Expected a ',' or ']'")));
    }
  }

  /** The conversion of a string leaf, on the component and the converter cache. */
  method ConvertLeaf(key: string, s: string, comp: UIComponent, cache: ConverterCache, rd: Reader, cols: Columns)
    returns (r: Result<Value>)
    requires ConvertsWith(rd, cols)
    modifies comp, cache
    ensures var l := rd.leaf(key, s, old(comp.attributes), old(cache.State()));
      r == l.r && comp.attributes == l.attrs && cache.State() == l.conv
  {
    ghost var l := Convert(cols, key, s, comp.attributes, cache.State());
    assert rd.leaf(key, s, comp.attributes, cache.State()) == l;
    var converter := cache.DetermineConverter(key, cols.convStrings, cols.vbStrings, cols.env);
    if converter.Err? {
      return Err(converter.error);
    }
    if converter.value.None? {
      return Ok(Str(s));
    }
    var previousLabel := StringAttr(comp.attributes, "label");
    if previousLabel.Err? {
      return Err(previousLabel.error);
    }
    var newLabel := SpecLabel(cols.convStrings, key);
    if newLabel.Some? {
      comp.attributes := comp.attributes["label" := Str(newLabel.value)];
    }
    r := cols.env.toObject(converter.value.value, comp.attributes, s);
    if r.Err? {
      return;
    }
    if previousLabel.value.None? {
      if newLabel.Some? {
        comp.attributes := comp.attributes - {"label"};
      }
    } else {
      comp.attributes := comp.attributes["label" := Str(previousLabel.value.value)];
    }
  }

  /** The value stored for a member read as `raw`, on the component and the converter cache. */
  method ReadMemberLeaf(key: string, raw: Value, comp: UIComponent, cache: ConverterCache, rd: Reader, cols: Columns,
                        ghost pos: nat)
    returns (r: Result<Value>)
    requires ConvertsWith(rd, cols)
    modifies comp, cache
    ensures var o := MemberLeaf(rd, PState(pos, old(comp.attributes), old(cache.State())), key, raw);
      r == o.r && comp.attributes == o.st.attrs && cache.State() == o.st.conv
  {
    var leaf := Unwrap(raw);
    if leaf.Err? {
      return Err(leaf.error);
    }
    r := leaf;
    if leaf.value.Str? {
      r := ConvertLeaf(key, leaf.value.s, comp, cache, rd, cols);
    }
  }

  /**
   * The rest of one pass of the object constructor's loop once a member's value was read:
   * `done` when the object is complete or an exception stopped it, otherwise the members
   * so far, with the cursor at the next member.
   */
  method FinishMember(t: Tokener, comp: UIComponent, cache: ConverterCache, rd: Reader, cols: Columns,
                      acc: seq<Field>, key: string, raw: Value, ghost start: nat)
    returns (done: bool, r: Result<Value>, fields: seq<Field>)
    requires t.src == rd.src && start < t.pos <= |t.src| && ConvertsWith(rd, cols)
    modifies t, comp, cache
    ensures done ==> Agrees(r, StateOf(t, comp, cache), Member(rd, old(StateOf(t, comp, cache)), acc, key, raw, start))
    ensures !done ==> old(t.pos) < t.pos <= |t.src|
    ensures !done ==> Members(rd, StateOf(t, comp, cache), fields) == Member(rd, old(StateOf(t, comp, cache)), acc, key, raw, start)
  {
    ghost var head := StateOf(t, comp, cache);
    fields := acc;
    var v := ReadMemberLeaf(key, raw, comp, cache, rd, cols, t.pos);
    if v.Err? {
      return true, v, fields;
    }
    fields := Put(acc, key, v.value);
    assert Member(rd, head, acc, key, raw, start) == Stored(rd, StateOf(t, comp, cache), fields, start);
    var a := ReadPairSeparator(t);
    match a
    case Bad(e) => done, r := true, Err(e);
    case Close(_) => done, r := true, Ok(Obj(fields));
    case More(_) => done, r := false, Ok(Obj(fields));
  }

  /**
   * One pass of the object constructor's loop: `done` when the object is complete or an
   * exception stopped it, otherwise the members so far, with the cursor at the next member.
   */
  method MemberStep(t: Tokener, comp: UIComponent, cache: ConverterCache, rd: Reader, cols: Columns, acc: seq<Field>)
    returns (done: bool, r: Result<Value>, fields: seq<Field>)
    requires t.src == rd.src && t.pos <= |t.src| && ConvertsWith(rd, cols)
    modifies t, comp, cache
    ensures done ==> Agrees(r, StateOf(t, comp, cache), Members(rd, old(StateOf(t, comp, cache)), acc))
    ensures !done ==> old(t.pos) < t.pos <= |t.src|
    ensures !done ==> Members(rd, StateOf(t, comp, cache), fields) == Members(rd, old(StateOf(t, comp, cache)), acc)
    decreases |t.src| + 1 - t.pos, 4
  {
    ghost var head := StateOf(t, comp, cache);
    fields := acc;
    var c := t.NextClean();
    if c == 0 as char {
      return true, SyntaxErr("A JSONObject text must end with '}'", t.pos), fields;
    }
    if c == '}' {
      return true, Ok(Obj(fields)), fields;
    }
    t.Back();
    done, r, fields := KeyStep(t, comp, cache, rd, cols, acc, head.pos);
  }

  /** The object constructor's loop at a key: the key, then the rest of the member. */
  method KeyStep(t: Tokener, comp: UIComponent, cache: ConverterCache, rd: Reader, cols: Columns,
                 acc: seq<Field>, ghost start: nat)
    returns (done: bool, r: Result<Value>, fields: seq<Field>)
    requires t.src == rd.src && start <= t.pos <= |t.src| && ConvertsWith(rd, cols)
    modifies t, comp, cache
    ensures done ==> Agrees(r, StateOf(t, comp, cache), MemberKey(rd, old(StateOf(t, comp, cache)), acc, start))
    ensures !done ==> old(t.pos) < t.pos <= |t.src|
    ensures !done ==> Members(rd, StateOf(t, comp, cache), fields) == MemberKey(rd, old(StateOf(t, comp, cache)), acc, start)
    decreases |t.src| + 1 - start, 3
  {
    fields := acc;
    var kv := NextValue(t, comp, cache, rd, cols);
    if kv.Err? {
      return true, kv, fields;
    }
    var key := KeyText(kv.value);
    if key.Err? {
      return true, Err(key.error), fields;
    }
    done, r, fields := ValueStep(t, comp, cache, rd, cols, acc, key.value, start);
  }

  /** The object constructor's loop after a key: the separator and the value, then the rest of the member. */
  method ValueStep(t: Tokener, comp: UIComponent, cache: ConverterCache, rd: Reader, cols: Columns,
                   acc: seq<Field>, key: string, ghost start: nat)
    returns (done: bool, r: Result<Value>, fields: seq<Field>)
    requires t.src == rd.src && start < t.pos <= |t.src| && ConvertsWith(rd, cols)
    modifies t, comp, cache
    ensures done ==> Agrees(r, StateOf(t, comp, cache), MemberValue(rd, old(StateOf(t, comp, cache)), acc, key, start))
    ensures !done ==> old(t.pos) < t.pos <= |t.src|
    ensures !done ==> Members(rd, StateOf(t, comp, cache), fields) == MemberValue(rd, old(StateOf(t, comp, cache)), acc, key, start)
    decreases |t.src| + 1 - start, 1
  {
    fields := acc;
    var sep := SkipKeySeparator(t);
    if sep.Err? {
      return true, Err(sep.error), fields;
    }
    var nv := NextValue(t, comp, cache, rd, cols);
    if nv.Err? {
      return true, nv, fields;
    }
    done, r, fields := FinishMember(t, comp, cache, rd, cols, acc, key, nv.value, start);
  }

  /** The JSFJSONObject constructor over a tokener. */
  method ReadObject(t: Tokener, comp: UIComponent, cache: ConverterCache, rd: Reader, cols: Columns) returns (r: Result<Value>)
    requires t.src == rd.src && t.pos <= |t.src| && ConvertsWith(rd, cols)
    modifies t, comp, cache
    ensures Agrees(r, StateOf(t, comp, cache), ObjectF(rd, old(StateOf(t, comp, cache))))
    decreases |t.src| + 1 - t.pos, 1
  {
    ghost var target := ObjectF(rd, StateOf(t, comp, cache));
    var c := t.NextClean();
    if c != '{' {
      return SyntaxErr("A JSONObject text must begin with '{'", t.pos);
    }
    r := ReadMembers(t, comp, cache, rd, cols, []);
  }

  /** The member loop of the object constructor, from the members read so far. */
  method ReadMembers(t: Tokener, comp: UIComponent, cache: ConverterCache, rd: Reader, cols: Columns, acc: seq<Field>)
    returns (r: Result<Value>)
    requires t.src == rd.src && t.pos <= |t.src| && ConvertsWith(rd, cols)
    modifies t, comp, cache
    ensures Agrees(r, StateOf(t, comp, cache), Members(rd, old(StateOf(t, comp, cache)), acc))
    decreases |t.src| + 1 - t.pos, 5
  {
    ghost var target := Members(rd, StateOf(t, comp, cache), acc);
    var fields := acc;
    var done := false;
    r := Ok(Obj(fields));
    while !done
      invariant !done ==> old(t.pos) <= t.pos <= |t.src|
      invariant !done ==> Members(rd, StateOf(t, comp, cache), fields) == target
      invariant done ==> Agrees(r, StateOf(t, comp, cache), target)
      decreases !done, |t.src| + 1 - t.pos
    {
      done, r, fields := MemberStep(t, comp, cache, rd, cols, fields);
    }
  }

  /**
   * One pass of the array reader's loop: `done` when the array is complete or an exception
   * stopped it, otherwise the elements so far, with the cursor at the next element.
   */
  method ElementStep(t: Tokener, comp: UIComponent, cache: ConverterCache, rd: Reader, cols: Columns, q: char, acc: seq<Value>)
    returns (done: bool, r: Result<Value>, elems: seq<Value>)
    requires t.src == rd.src && t.pos <= |t.src| && ConvertsWith(rd, cols)
    modifies t, comp, cache
    ensures done ==> Agrees(r, StateOf(t, comp, cache), Elements(rd, old(StateOf(t, comp, cache)), q, acc))
    ensures !done ==> old(t.pos) < t.pos <= |t.src|
    ensures !done ==> Elements(rd, StateOf(t, comp, cache), q, elems) == Elements(rd, old(StateOf(t, comp, cache)), q, acc)
    decreases |t.src| + 1 - t.pos, 4
  {
    ghost var head := StateOf(t, comp, cache);
    elems := acc;
    var e := ReadElementValue(t, comp, cache, rd, cols);
    if e.Err? {
      return true, e, elems;
    }
    elems := acc + [e.value];
    assert Elements(rd, head, q, acc) == Element(rd, StateOf(t, comp, cache), q, elems, head.pos);
    done, r := FinishElement(t, comp, cache, rd, q, elems, head.pos);
  }

  /** An element of the array reader, on the tokener. */
  method ReadElementValue(t: Tokener, comp: UIComponent, cache: ConverterCache, rd: Reader, cols: Columns)
    returns (r: Result<Value>)
    requires t.src == rd.src && t.pos <= |t.src| && ConvertsWith(rd, cols)
    modifies t, comp, cache
    ensures Agrees(r, StateOf(t, comp, cache), ElementValue(rd, old(StateOf(t, comp, cache))))
    decreases |t.src| + 1 - t.pos, 3
  {
    ghost var head := StateOf(t, comp, cache);
    var c := t.NextClean();
    t.Back();
    if c == ',' {
      return Ok(Null);
    }
    assert ElementValue(rd, head) == ValueF(rd, StateOf(t, comp, cache));
    r := NextValue(t, comp, cache, rd, cols);
  }

  /** The separator after an array element: `done` unless another element follows. */
  method FinishElement(t: Tokener, comp: UIComponent, cache: ConverterCache, rd: Reader, q: char, elems: seq<Value>, ghost start: nat)
    returns (done: bool, r: Result<Value>)
    requires t.src == rd.src && start <= t.pos <= |t.src|
    modifies t
    ensures done ==> Agrees(r, StateOf(t, comp, cache), Element(rd, old(StateOf(t, comp, cache)), q, elems, start))
    ensures !done ==> old(t.pos) < t.pos <= |t.src|
    ensures !done ==> Elements(rd, StateOf(t, comp, cache), q, elems) == Element(rd, old(StateOf(t, comp, cache)), q, elems, start)
  {
    var a := ReadArraySeparator(t, q);
    match a
    case Bad(x) => done, r := true, Err(x);
    case Close(_) => done, r := true, Ok(Arr(elems));
    case More(_) => done, r := false, Ok(Arr(elems));
  }

  /** The base JSONArray constructor over a tokener, reading its elements with nextValue. */
  method ReadArray(t: Tokener, comp: UIComponent, cache: ConverterCache, rd: Reader, cols: Columns) returns (r: Result<Value>)
    requires t.src == rd.src && t.pos <= |t.src| && ConvertsWith(rd, cols)
    modifies t, comp, cache
    ensures Agrees(r, StateOf(t, comp, cache), ArrayF(rd, old(StateOf(t, comp, cache))))
    decreases |t.src| + 1 - t.pos, 1
  {
    ghost var target := ArrayF(rd, StateOf(t, comp, cache));
    var c := t.NextClean();
    var q: char;
    if c == '[' {
      q := ']';
    } else if c == '(' {
      q := ')';
    } else {
      return SyntaxErr("A JSONArray text must start with '['", t.pos);
    }
    c := t.NextClean();
    if c == ']' {
      return Ok(Arr([]));
    }
    t.Back();
    r := ReadElements(t, comp, cache, rd, cols, q, []);
  }

  /** The element loop of the array reader, from the elements read so far. */
  method ReadElements(t: Tokener, comp: UIComponent, cache: ConverterCache, rd: Reader, cols: Columns, q: char, acc: seq<Value>)
    returns (r: Result<Value>)
    requires t.src == rd.src && t.pos <= |t.src| && ConvertsWith(rd, cols)
    modifies t, comp, cache
    ensures Agrees(r, StateOf(t, comp, cache), Elements(rd, old(StateOf(t, comp, cache)), q, acc))
    decreases |t.src| + 1 - t.pos, 5
  {
    ghost var target := Elements(rd, StateOf(t, comp, cache), q, acc);
    var elems := acc;
    var done := false;
    r := Ok(Arr(elems));
    while !done
      invariant !done ==> old(t.pos) <= t.pos <= |t.src|
      invariant !done ==> Elements(rd, StateOf(t, comp, cache), q, elems) == target
      invariant done ==> Agrees(r, StateOf(t, comp, cache), target)
      decreases !done, |t.src| + 1 - t.pos
    {
      done, r, elems := ElementStep(t, comp, cache, rd, cols, q, elems);
    }
  }
}
