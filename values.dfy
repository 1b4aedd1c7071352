/**
 * Java values as they flow through the store engine, the exceptions it raises,
 * and the few java.lang string and number routines the engine relies on.
 */
module Values {

  datatype Option<+T> = None | Some(value: T)

  /** The exception classes the engine throws, catches or wraps. */
  datatype Kind =
    | JSONException
    | SyntaxError(position: nat)   // a JSONException raised by a tokener, at a cursor position
    | ConverterException
    | ValidatorException
    | ClassCastException
    | NullPointerException
    | IllegalArgumentException
    | NumberFormatException
    | IndexOutOfBounds
    | StackOverflowError
    | ClassNotFoundException
    | PropertyNotFoundException
    | RuntimeException
    | FacesException
    | Raised(name: string)         // an exception raised by code outside the model

  /** A thrown exception: its class and what `getMessage()` returns. */
  datatype Exception = Exception(kind: Kind, message: Option<string>)

  predicate IsJSONException(e: Exception) {
    e.kind.JSONException? || e.kind.SyntaxError?
  }

  datatype Result<+T> = Ok(value: T) | Err(error: Exception)
  {
    predicate IsFailure() { Err? }

    function PropagateFailure<U>(): Result<U>
      requires Err?
    {
      Err(error)
    }

    function Extract(): T
      requires Ok?
    {
      value
    }
  }

  function Fail<T>(k: Kind, msg: string): Result<T> {
    Err(Exception(k, Some(msg)))
  }

  /** The boxed integral classes a `Number` of the model can have. */
  datatype NumKind = LongKind | IntegerKind | ShortKind | ByteKind

  /** A Java object as the engine sees it. */
  datatype Value =
    | Null                      // Java null
    | JNull                     // JSONObject.NULL
    | Str(s: string)
    | Bool(b: bool)
    | Num(kind: NumKind, n: int)
    | Date(millis: int)         // java.util.Date
    | Arr(elems: seq<Value>)    // JSONArray
    | Obj(fields: seq<Field>)   // JSONObject, in key order
    | Lst(items: seq<Value>)    // a java.util.List (any Collection)
    | Ref(id: nat)              // a model object held in the faces context

  datatype Field = Field(name: string, val: Value)

  // ---------------------------------------------------------------------------
  // JSONObject as an ordered sequence of fields

  function Names(fs: seq<Field>): (r: seq<string>)
    ensures |r| == |fs|
    ensures forall i :: 0 <= i < |fs| ==> r[i] == fs[i].name
  {
    if |fs| == 0 then [] else [fs[0].name] + Names(fs[1..])
  }

  predicate Distinct(ks: seq<string>) {
    forall i, j :: 0 <= i < j < |ks| ==> ks[i] != ks[j]
  }

  /** No two fields share a name (as a parsed JSONObject guarantees). */
  predicate DistinctNames(fs: seq<Field>) {
    forall i, j :: 0 <= i < j < |fs| ==> fs[i].name != fs[j].name
  }

  /** The value stored under `k`, if any. */
  function Lookup(fs: seq<Field>, k: string): (r: Option<Value>)
    ensures r.None? <==> k !in Names(fs)
  {
    if |fs| == 0 then None
    else if fs[0].name == k then Some(fs[0].val)
    else Lookup(fs[1..], k)
  }

  /** JSONObject.opt: the stored value, or null when there is none. */
  function Opt(fs: seq<Field>, k: string): Value {
    match Lookup(fs, k)
    case Some(v) => v
    case None => Null
  }

  /** JSONObject.get: the stored value; a missing or null entry is an error. */
  function Get(fs: seq<Field>, k: string): (r: Result<Value>)
    ensures r.Ok? <==> (Lookup(fs, k).Some? && Lookup(fs, k).value != Null)
    ensures r.Ok? ==> r.value == Opt(fs, k)
  {
    match Lookup(fs, k)
    case Some(v) =>
      if v == Null then Fail(JSONException, "JSONObject[" + Quote(k) + "] not found.") else Ok(v)
    case None => Fail(JSONException, "JSONObject[" + Quote(k) + "] not found.")
  }

  /**
   * `get(key)` for a key the iteration of keys() has just produced: a JSONObject's keys are
   * distinct, so that is the entry's own value (see GetOfEntry).
   */
  function EntryGet(f: Field): (r: Result<Value>)
    ensures r.Ok? <==> f.val != Null
    ensures r.Ok? ==> r.value == f.val
  {
    if f.val == Null then Fail(JSONException, "JSONObject[" + Quote(f.name) + "] not found.") else Ok(f.val)
  }

  /** With distinct names, looking up the i-th name finds the i-th field. */
  lemma {:induction false} LookupDistinct(fs: seq<Field>, i: nat)
    requires i < |fs| && DistinctNames(fs)
    ensures Lookup(fs, fs[i].name) == Some(fs[i].val)
  {
    if i > 0 {
      assert fs[0].name != fs[i].name;
      LookupDistinct(fs[1..], i - 1);
    }
  }

  /** Iterating the keys of an object and getting each one reads the entries in order. */
  lemma GetOfEntry(fs: seq<Field>, i: nat)
    requires i < |fs| && DistinctNames(fs)
    ensures Get(fs, fs[i].name) == EntryGet(fs[i])
  {
    LookupDistinct(fs, i);
  }

  /** A map put: replaces the value of an existing key in place, or appends a new key. */
  function Put(fs: seq<Field>, k: string, v: Value): (r: seq<Field>)
    ensures Lookup(r, k) == Some(v)
    ensures forall j :: j != k ==> Lookup(r, j) == Lookup(fs, j)
  {
    if |fs| == 0 then [Field(k, v)]
    else if fs[0].name == k then [Field(k, v)] + fs[1..]
    else [fs[0]] + Put(fs[1..], k, v)
  }

  /** A put keeps the order of the names, and a new name goes last. */
  lemma {:induction false} PutNames(fs: seq<Field>, k: string, v: Value)
    ensures k in Names(fs) ==> Names(Put(fs, k, v)) == Names(fs)
    ensures k !in Names(fs) ==> Names(Put(fs, k, v)) == Names(fs) + [k]
  {
    if |fs| > 0 && fs[0].name != k {
      PutNames(fs[1..], k, v);
      assert Names(fs) == [fs[0].name] + Names(fs[1..]);
      assert Put(fs, k, v) == [fs[0]] + Put(fs[1..], k, v);
      NamesCons(fs[0], Put(fs[1..], k, v));
    } else if |fs| > 0 {
      NamesCons(Field(k, v), fs[1..]);
    }
  }

  lemma NamesCons(f: Field, rest: seq<Field>)
    ensures Names([f] + rest) == [f.name] + Names(rest)
  {
    assert ([f] + rest)[1..] == rest;
  }

  /** Removes every field named `k`. */
  function Remove(fs: seq<Field>, k: string): (r: seq<Field>)
    ensures Lookup(r, k) == None
    ensures forall j :: j != k ==> Lookup(r, j) == Lookup(fs, j)
  {
    if |fs| == 0 then []
    else if fs[0].name == k then Remove(fs[1..], k)
    else [fs[0]] + Remove(fs[1..], k)
  }

  /** JSONObject.put: a null value removes the key. */
  function JsonPut(fs: seq<Field>, k: string, v: Value): (r: seq<Field>)
    ensures Lookup(r, k) == if v == Null then None else Some(v)
    ensures forall j :: j != k ==> Lookup(r, j) == Lookup(fs, j)
  {
    if v == Null then Remove(fs, k) else Put(fs, k, v)
  }

  /** A put keeps the names of an object distinct: it replaces in place or appends a new name. */
  lemma PutKeepsDistinct(fs: seq<Field>, k: string, v: Value)
    requires DistinctNames(fs)
    ensures DistinctNames(Put(fs, k, v))
  {
    var r := Put(fs, k, v);
    var ns, rn := Names(fs), Names(r);
    PutNames(fs, k, v);
    forall i, j | 0 <= i < j < |r|
      ensures r[i].name != r[j].name
    {
      assert rn[i] == r[i].name && rn[j] == r[j].name;
      if k in ns {
        assert rn == ns;
        assert ns[i] == fs[i].name && ns[j] == fs[j].name;
      } else {
        assert rn == ns + [k];
        assert rn[i] == ns[i] == fs[i].name;
        if j == |ns| {
          assert ns[i] in ns;
        } else {
          assert ns[j] == fs[j].name;
        }
      }
    }
  }

  /** A removal keeps the names of an object distinct. */
  lemma {:induction false} RemoveKeepsDistinct(fs: seq<Field>, k: string)
    requires DistinctNames(fs)
    ensures DistinctNames(Remove(fs, k))
  {
    if |fs| > 0 {
      var tail := fs[1..];
      assert DistinctNames(tail) by {
        forall i, j | 0 <= i < j < |tail|
          ensures tail[i].name != tail[j].name
        {
          assert tail[i] == fs[i + 1] && tail[j] == fs[j + 1];
        }
      }
      RemoveKeepsDistinct(tail, k);
      if fs[0].name != k {
        var rest := Remove(tail, k);
        var r := [fs[0]] + rest;
        forall j | 0 <= j < |tail|
          ensures tail[j].name != fs[0].name
        {
          assert tail[j] == fs[j + 1];
        }
        assert Lookup(tail, fs[0].name) == None;
        assert fs[0].name !in Names(rest);
        forall i, j | 0 <= i < j < |r|
          ensures r[i].name != r[j].name
        {
          if i == 0 {
            assert r[j] == rest[j - 1];
            assert Names(rest)[j - 1] == rest[j - 1].name;
          } else {
            assert r[i] == rest[i - 1] && r[j] == rest[j - 1];
          }
        }
      }
    }
  }

  /** JSONObject.put keeps the names of an object distinct. */
  lemma JsonPutKeepsDistinct(fs: seq<Field>, k: string, v: Value)
    requires DistinctNames(fs)
    ensures DistinctNames(JsonPut(fs, k, v))
  {
    if v == Null {
      RemoveKeepsDistinct(fs, k);
    } else {
      PutKeepsDistinct(fs, k, v);
    }
  }

  // ---------------------------------------------------------------------------
  // An insertion-ordered string map (a HashMap the model iterates in insertion order)

  datatype SMap<T> = SMap(keys: seq<string>, vals: map<string, T>)
  {
    ghost predicate Valid() {
      Distinct(keys) && (forall k :: k in vals <==> k in keys)
    }

    function Set(k: string, v: T): (r: SMap<T>)
      ensures r.vals == vals[k := v]
      ensures k in vals ==> r.keys == keys
      ensures k !in vals ==> r.keys == keys + [k]
    {
      if k in vals then SMap(keys, vals[k := v]) else SMap(keys + [k], vals[k := v])
    }
  }

  function EmptyMap<T>(): (r: SMap<T>)
    ensures r.Valid() && |r.keys| == 0
  {
    SMap([], map[])
  }

  lemma SetKeepsValid<T>(m: SMap<T>, k: string, v: T)
    requires m.Valid()
    ensures m.Set(k, v).Valid()
  {
    if k !in m.vals {
      assert k !in m.keys;
      var ks := m.keys + [k];
      forall i, j | 0 <= i < j < |ks|
        ensures ks[i] != ks[j]
      {
        if j == |m.keys| {
          assert ks[i] in m.keys;
        }
      }
    }
  }

  // ---------------------------------------------------------------------------
  // Strings

  /** The last decimal digit of n. */
  function Lsb(n: nat): (c: char)
    ensures '0' <= c <= '9' && DigitValue(c, 10) == Some(n % 10)
  {
    ('0' as int + n % 10) as char
  }

  /** Decimal text of a non-negative number. */
  function NatText(n: nat): (r: string)
    ensures |r| > 0
    ensures forall i :: 0 <= i < |r| ==> '0' <= r[i] <= '9'
    decreases n
  {
    if n < 10 then [Lsb(n)] else NatText(n / 10) + [Lsb(n)]
  }

  /** Decimal text of an integer (Long.toString). */
  function IntText(n: int): string {
    (if n < 0 then "-" else "") + NatText(if n < 0 then -n else n)
  }

  /** The text of a Date; java.util.Date.toString's calendar formatting falls outside the model. */
  function DateText(millis: int): string {
    "Date(" + IntText(millis) + ")"
  }

  /** Object.toString of a model object. */
  function RefText(id: nat): string {
    "Bean@" + NatText(id)
  }

  function HexDigit(n: nat): (c: char)
    ensures '0' <= c <= '9' || 'a' <= c <= 'f'
  {
    "0123456789abcdef"[n % 16]
  }

  /** JSONObject.quote: the text wrapped in double quotes with JSON escapes. */
  function Quote(s: string): (r: string)
    ensures |r| >= 2 && r[0] == '"' && r[|r| - 1] == '"'
  {
    "\"" + QuoteBody(s, ' ') + "\""
  }

  /** The escape JSONObject.quote writes for `c` when `prev` came before it. */
  function Escape(c: char, prev: char): (e: string)
    ensures |e| > 0
  {
    if c == '\\' || c == '"' then ['\\', c]
    else if c == '/' then (if prev == '<' then "\\/" else "/")
    else if c == 8 as char then "\\b"
    else if c == '\t' then "\\t"
    else if c == '\n' then "\\n"
    else if c == 12 as char then "\\f"
    else if c == '\r' then "\\r"
    else if c < ' ' then "\\u00" + [HexDigit(c as nat / 16), HexDigit(c as nat % 16)]
    else [c]
  }

  function QuoteBody(s: string, prev: char): string
    decreases |s|
  {
    if |s| == 0 then "" else Escape(s[0], prev) + QuoteBody(s[1..], s[0])
  }

  /** The text org.json writes for a value. */
  function JsonText(v: Value): (r: string)
    ensures |r| > 0
    ensures v.Arr? || v.Lst? ==> r[0] == '[' && r[|r| - 1] == ']'
    ensures v.Obj? ==> r[0] == '{' && r[|r| - 1] == '}'
    ensures v.Str? || v.Date? || v.Ref? ==> r[0] == '"' && r[|r| - 1] == '"'
    decreases v
  {
    match v
    case Null => "null"
    case JNull => "null"
    case Str(s) => Quote(s)
    case Bool(b) => if b then "true" else "false"
    case Num(_, n) => IntText(n)
    case Date(m) => Quote(DateText(m))
    case Arr(es) => "[" + JoinJson(es) + "]"
    case Lst(es) => "[" + JoinJson(es) + "]"
    case Obj(fs) => "{" + JoinMembers(fs) + "}"
    case Ref(id) => Quote(RefText(id))
  }

  function JoinJson(es: seq<Value>): string
    decreases es
  {
    if |es| == 0 then ""
    else if |es| == 1 then JsonText(es[0])
    else JsonText(es[0]) + "," + JoinJson(es[1..])
  }

  function JoinMembers(fs: seq<Field>): string
    decreases fs
  {
    if |fs| == 0 then ""
    else
      var m := Quote(fs[0].name) + ":" + JsonText(fs[0].val);
      if |fs| == 1 then m else m + "," + JoinMembers(fs[1..])
  }

  /** String.valueOf: the text Java gives any object, "null" for null. */
  function JavaText(v: Value): (r: string)
    ensures v.Str? ==> r == v.s
    ensures v == Null || v == JNull ==> r == "null"
    ensures v.Arr? || v.Obj? ==> r == JsonText(v)
    ensures v.Lst? ==> |r| >= 2 && r[0] == '[' && r[|r| - 1] == ']'
    decreases v
  {
    match v
    case Null => "null"
    case JNull => "null"
    case Str(s) => s
    case Bool(b) => if b then "true" else "false"
    case Num(_, n) => IntText(n)
    case Date(m) => DateText(m)
    case Arr(_) => JsonText(v)
    case Obj(_) => JsonText(v)
    case Lst(es) => "[" + JoinText(es) + "]"
    case Ref(id) => RefText(id)
  }

  function JoinText(es: seq<Value>): string
    decreases es
  {
    if |es| == 0 then ""
    else if |es| == 1 then JavaText(es[0])
    else JavaText(es[0]) + ", " + JoinText(es[1..])
  }

  /** The text Java gives a number parses back to the number. */
  lemma NumberTextParses(k: NumKind, n: int)
    requires InRange(n, W64)
    ensures ParseInteger(JavaText(Num(k, n)), 10, W64) == Ok(n)
  {
    ParseIntText(n, W64);
  }

  /** `pat` occurs in `s` at index `j`. */
  predicate MatchAt(s: string, pat: string, j: int) {
    0 <= j && j + |pat| <= |s| && s[j..j + |pat|] == pat
  }

  predicate StartsWith(s: string, p: string) {
    |p| <= |s| && s[..|p|] == p
  }

  predicate EndsWith(s: string, p: string) {
    |p| <= |s| && s[|s| - |p|..] == p
  }

  /**
   * String.trim: the slice between the first character above U+0020 and the end of the
   * last one; everything around it is at most U+0020.
   */
  function Trim(s: string): (r: string)
    ensures |r| > 0 ==> r[0] > ' ' && r[|r| - 1] > ' '
    ensures var k := TrimLow(s, 0);
      && k + |r| <= |s| && r == s[k..k + |r|]
      && (forall i :: 0 <= i < k ==> s[i] <= ' ')
      && (forall i :: k + |r| <= i < |s| ==> s[i] <= ' ')
  {
    var lo := TrimLow(s, 0);
    s[lo..TrimHigh(s, lo, |s|)]
  }

  /** The index of the first character above U+0020 from `i` on, or the length. */
  function TrimLow(s: string, i: nat): (k: nat)
    requires i <= |s|
    ensures i <= k <= |s| && (k < |s| ==> s[k] > ' ')
    ensures forall n :: i <= n < k ==> s[n] <= ' '
    decreases |s| - i
  {
    if i < |s| && s[i] <= ' ' then TrimLow(s, i + 1) else i
  }

  /** The end of the last character above U+0020 below `hi`, or `lo`. */
  function TrimHigh(s: string, lo: nat, hi: nat): (k: nat)
    requires lo <= hi <= |s|
    ensures lo <= k <= hi && (k > lo ==> s[k - 1] > ' ')
    ensures forall n :: k <= n < hi ==> s[n] <= ' '
    decreases hi
  {
    if hi > lo && s[hi - 1] <= ' ' then TrimHigh(s, lo, hi - 1) else hi
  }

  /** Trimming twice is trimming once. */
  lemma TrimIdempotent(s: string)
    ensures Trim(Trim(s)) == Trim(s)
  {
    var t := Trim(s);
    assert TrimLow(t, 0) == 0;
    assert TrimHigh(t, 0, |t|) == |t|;
  }

  /** String.replace(pat, rep) for a non-empty pattern: left to right, without overlaps. */
  function ReplaceAll(s: string, pat: string, rep: string): string
    requires |pat| > 0
    decreases |s|
  {
    if |s| < |pat| then s
    else if s[..|pat|] == pat then rep + ReplaceAll(s[|pat|..], pat, rep)
    else [s[0]] + ReplaceAll(s[1..], pat, rep)
  }

  /** A text in which the pattern does not occur is left as it is. */
  lemma {:induction false} ReplaceWithoutMatch(s: string, pat: string, rep: string)
    requires |pat| > 0 && forall j :: 0 <= j ==> !MatchAt(s, pat, j)
    ensures ReplaceAll(s, pat, rep) == s
    decreases |s|
  {
    if |s| >= |pat| {
      assert !MatchAt(s, pat, 0);
      if |s| > |pat| {
        ReplaceSkip(s, pat, rep);
        forall j | 0 <= j
          ensures !MatchAt(s[1..], pat, j)
        {
          MatchInTail(s, pat, j);
        }
        ReplaceWithoutMatch(s[1..], pat, rep);
        assert [s[0]] + s[1..] == s;
      } else {
        assert s[..|pat|] == s;
        ReplaceSkip1(s, pat, rep);
      }
    }
  }

  /** A text as long as the pattern but different from it is kept. */
  lemma ReplaceSkip1(s: string, pat: string, rep: string)
    requires |pat| > 0 && |s| == |pat| && s != pat
    ensures ReplaceAll(s, pat, rep) == s
  {
    assert s[..|pat|] == s;
    assert ReplaceAll(s[1..], pat, rep) == s[1..];
    assert [s[0]] + s[1..] == s;
  }

  /**
   * The replacement works from left to right: the text before the first occurrence is kept,
   * that occurrence becomes `rep`, and the search goes on after it, so occurrences never overlap.
   */
  lemma {:induction false} ReplaceAtFirstMatch(s: string, pat: string, rep: string, j: nat)
    requires |pat| > 0 && MatchAt(s, pat, j)
    requires forall k :: 0 <= k < j ==> !MatchAt(s, pat, k)
    ensures ReplaceAll(s, pat, rep) == s[..j] + rep + ReplaceAll(s[j + |pat|..], pat, rep)
  {
    ReplaceBeforeRest(s, pat, rep, j, s[j + |pat|..]);
  }

  /** ReplaceAtFirstMatch, with what follows the occurrence named `rest`. */
  lemma {:induction false} ReplaceBeforeRest(s: string, pat: string, rep: string, j: nat, rest: string)
    requires |pat| > 0 && MatchAt(s, pat, j) && rest == s[j + |pat|..]
    requires forall k :: 0 <= k < j ==> !MatchAt(s, pat, k)
    ensures ReplaceAll(s, pat, rep) == s[..j] + rep + ReplaceAll(rest, pat, rep)
    decreases j
  {
    if j == 0 {
      ReplaceHere(s, pat, rep);
      assert s[..0] + rep == rep;
    } else {
      FirstMatchInTail(s, pat, j);
      assert rest == s[1..][j - 1 + |pat|..];
      ReplaceBeforeRest(s[1..], pat, rep, j - 1, rest);
      ReplaceSkip(s, pat, rep);
      ConsSplit(s, j, rep, ReplaceAll(rest, pat, rep));
    }
  }

  lemma ReplaceHere(s: string, pat: string, rep: string)
    requires |pat| > 0 && MatchAt(s, pat, 0)
    ensures ReplaceAll(s, pat, rep) == rep + ReplaceAll(s[|pat|..], pat, rep)
  {
    assert s[..|pat|] == pat;
  }

  lemma ReplaceSkip(s: string, pat: string, rep: string)
    requires |pat| > 0 && |s| > |pat| && !MatchAt(s, pat, 0)
    ensures ReplaceAll(s, pat, rep) == [s[0]] + ReplaceAll(s[1..], pat, rep)
  {
    assert s[..|pat|] != pat;
  }

  /** An occurrence in the tail of a text is an occurrence one place later in the text. */
  lemma MatchInTail(s: string, pat: string, k: nat)
    requires |s| > 0
    ensures MatchAt(s[1..], pat, k) <==> MatchAt(s, pat, k + 1)
  {
    if k + |pat| <= |s| - 1 {
      assert s[1..][k..k + |pat|] == s[k + 1..k + 1 + |pat|];
    }
  }

  /** A first occurrence at `j > 0` is a first occurrence at `j - 1` in the tail. */
  lemma FirstMatchInTail(s: string, pat: string, j: nat)
    requires 0 < j && MatchAt(s, pat, j) && forall k :: 0 <= k < j ==> !MatchAt(s, pat, k)
    ensures MatchAt(s[1..], pat, j - 1) && forall k :: 0 <= k < j - 1 ==> !MatchAt(s[1..], pat, k)
  {
    MatchInTail(s, pat, j - 1);
    forall k | 0 <= k < j - 1
      ensures !MatchAt(s[1..], pat, k)
    {
      MatchInTail(s, pat, k);
    }
  }

  lemma ConsSplit(s: string, j: nat, rep: string, x: string)
    requires 0 < j <= |s|
    ensures [s[0]] + (s[1..][..j - 1] + rep + x) == s[..j] + rep + x
  {
    assert [s[0]] + s[1..][..j - 1] == s[..j];
  }

  function LowerChar(c: char): char {
    if 'A' <= c <= 'Z' then (c as int + 32) as char else c
  }

  /** String.equalsIgnoreCase, for the ASCII letters. */
  function EqualsIgnoreCase(a: string, b: string): (r: bool)
    ensures a == b ==> r
    ensures r ==> |a| == |b|
  {
    |a| == |b| && forall i :: 0 <= i < |a| ==> LowerChar(a[i]) == LowerChar(b[i])
  }

  /** Equality ignoring case is symmetric and transitive. */
  lemma EqualsIgnoreCaseSymmetricTransitive(a: string, b: string, c: string)
    ensures EqualsIgnoreCase(a, b) ==> EqualsIgnoreCase(b, a)
    ensures EqualsIgnoreCase(a, b) && EqualsIgnoreCase(b, c) ==> EqualsIgnoreCase(a, c)
  {
  }

  /** A flag is "true" in any mix of cases, and nothing else is. */
  lemma TrueInAnyCase(s: string)
    ensures EqualsIgnoreCase("TRUE", "true") && EqualsIgnoreCase("True", "true") && EqualsIgnoreCase("tRuE", "true")
    ensures EqualsIgnoreCase(s, "true") ==> |s| == 4 && (s[0] == 't' || s[0] == 'T') && (s[3] == 'e' || s[3] == 'E')
    ensures !EqualsIgnoreCase("yes", "true") && !EqualsIgnoreCase("truth", "true") && !EqualsIgnoreCase("", "true")
  {
    if EqualsIgnoreCase(s, "true") {
      assert LowerChar(s[0]) == 't' && LowerChar(s[3]) == 'e';
    }
    assert LowerChar('u') != LowerChar('h');
  }

  // ---------------------------------------------------------------------------
  // Numbers

  /** A Java integral width. */
  datatype Width = W8 | W16 | W32 | W64

  /** 2 to the power of the width. */
  function Modulus(w: Width): int {
    match w
    case W8 => 0x100
    case W16 => 0x1_0000
    case W32 => 0x1_0000_0000
    case W64 => 0x1_0000_0000_0000_0000
  }

  /** The smallest value of the width; the largest is `-MinOf(w) - 1`. */
  function MinOf(w: Width): int {
    -(Modulus(w) / 2)
  }

  predicate InRange(n: int, w: Width) {
    MinOf(w) <= n < -MinOf(w)
  }

  /** Two's-complement narrowing, as Java's integral casts and `longValue`/`intValue`/... do. */
  function Narrow(n: int, w: Width): (r: int)
    ensures InRange(r, w)
    ensures InRange(n, w) ==> r == n
  {
    match w
    case W8 => (n + 0x80) % 0x100 - 0x80
    case W16 => (n + 0x8000) % 0x1_0000 - 0x8000
    case W32 => (n + 0x8000_0000) % 0x1_0000_0000 - 0x8000_0000
    case W64 => (n + 0x8000_0000_0000_0000) % 0x1_0000_0000_0000_0000 - 0x8000_0000_0000_0000
  }

  /** Narrowing keeps the value modulo 2 to the power of the width. */
  lemma NarrowCongruent(n: int, w: Width)
    ensures exists q :: Narrow(n, w) == n + q * Modulus(w)
  {
    var p := Modulus(w);
    var x := n + -MinOf(w);
    assert x == (x / p) * p + x % p;
    assert Narrow(n, w) == n + (-(x / p)) * p;
  }

  function DigitValue(c: char, radix: nat): (r: Option<nat>)
    ensures r.Some? ==> r.value < radix
  {
    var d :=
      if '0' <= c <= '9' then c as int - '0' as int
      else if 'a' <= c <= 'z' then c as int - 'a' as int + 10
      else if 'A' <= c <= 'Z' then c as int - 'A' as int + 10
      else radix;
    if 0 <= d < radix then Some(d) else None
  }

  /** The value of a digit string in `radix`, or None when some character is not a digit. */
  function Digits(s: string, radix: nat): (r: Option<nat>)
    decreases |s|
  {
    if |s| == 0 then Some(0)
    else
      match (Digits(s[..|s| - 1], radix), DigitValue(s[|s| - 1], radix))
      case (Some(h), Some(d)) => Some(h * radix + d)
      case _ => None
  }

  /**
   * Long.parseLong / Integer.parseInt in `radix`: an optional sign followed by at least one
   * digit, and a value that fits the width; anything else is a NumberFormatException.
   */
  function ParseInteger(s: string, radix: nat, w: Width): (r: Result<int>)
    ensures r.Ok? ==> InRange(r.value, w)
    ensures r.Err? ==> r.error.kind == NumberFormatException
    ensures r.Ok? && |s| > 0 && s[0] == '-' ==> r.value <= 0
    ensures r.Ok? && |s| > 0 && s[0] != '-' ==> r.value >= 0
  {
    var neg := |s| > 0 && s[0] == '-';
    var body := if |s| > 0 && (s[0] == '-' || s[0] == '+') then s[1..] else s;
    var bad := Fail(NumberFormatException, "For input string: \"" + s + "\"");
    if |body| == 0 then bad
    else
      match Digits(body, radix)
      case None => bad
      case Some(m) =>
        var v: int := if neg then -(m as int) else m;
        if InRange(v, w) then Ok(v) else bad
  }

  predicate Sign(c: char) {
    c == '-' || c == '+'
  }

  /** Digits accepts exactly the texts all of whose characters are digits of the radix. */
  lemma {:induction false} DigitsAccept(s: string, radix: nat)
    ensures Digits(s, radix).Some? <==> forall i :: 0 <= i < |s| ==> DigitValue(s[i], radix).Some?
    decreases |s|
  {
    if |s| > 0 {
      var h := s[..|s| - 1];
      DigitsAccept(h, radix);
      assert forall i :: 0 <= i < |h| ==> h[i] == s[i];
    }
  }

  /**
   * What parseInt/parseLong accepts is not empty and is all digits of the radix, except for
   * a leading sign that is followed by at least one digit.
   */
  lemma ParseIntegerAccepts(s: string, radix: nat, w: Width)
    ensures ParseInteger(s, radix, w).Ok? ==>
      |s| > 0 && forall i :: 0 <= i < |s| ==> DigitValue(s[i], radix).Some? || (i == 0 && Sign(s[0]) && |s| > 1)
  {
    if |s| > 0 && Sign(s[0]) {
      var body := s[1..];
      DigitsAccept(body, radix);
      assert forall i :: 1 <= i < |s| ==> s[i] == body[i - 1];
    } else {
      DigitsAccept(s, radix);
    }
  }

  /** Parsing the decimal text of any integer that fits the width gives the integer back. */
  lemma ParseIntText(n: int, w: Width)
    requires InRange(n, w)
    ensures ParseInteger(IntText(n), 10, w) == Ok(n)
  {
    IntTextParses(n, w);
  }

  /** The text of an integer outside the width does not parse: there is no wrap-around. */
  lemma ParseOutOfRangeFails(n: int, w: Width)
    requires !InRange(n, w)
    ensures ParseInteger(IntText(n), 10, w).Err?
  {
    IntTextParses(n, w);
  }

  /** The decimal text of an integer parses exactly when the integer fits, and then to the integer. */
  lemma IntTextParses(n: int, w: Width)
    ensures var r := ParseInteger(IntText(n), 10, w); (r.Ok? <==> InRange(n, w)) && (r.Ok? ==> r.value == n)
  {
    if n < 0 {
      NegativeTextParses(-n, w);
    } else {
      assert IntText(n) == NatText(n);
      NatTextParses(n, w);
    }
  }

  /** The decimal text of a number parses exactly when the number fits, and then to the number. */
  lemma NatTextParses(n: nat, w: Width)
    ensures var r := ParseInteger(NatText(n), 10, w); (r.Ok? <==> InRange(n, w)) && (r.Ok? ==> r.value == n)
  {
    var t := NatText(n);
    DigitsOfNatText(n);
    assert '0' <= t[0] <= '9';
  }

  /** `-` and the decimal text of `m` parse exactly when `-m` fits, and then to `-m`. */
  lemma NegativeTextParses(m: nat, w: Width)
    ensures var r := ParseInteger("-" + NatText(m), 10, w); (r.Ok? <==> InRange(-(m as int), w)) && (r.Ok? ==> r.value == -(m as int))
  {
    var t := NatText(m);
    DigitsOfNatText(m);
    assert ("-" + t)[1..] == t;
    assert ("-" + t)[0] == '-';
  }

  /** A non-negative number may also be written with a plus sign. */
  lemma ParsePlusText(n: nat, w: Width)
    requires InRange(n, w)
    ensures ParseInteger("+" + NatText(n), 10, w) == Ok(n)
  {
    var t := NatText(n);
    DigitsOfNatText(n);
    assert ("+" + t)[1..] == t;
    assert ("+" + t)[0] == '+';
  }

  /** Hexadecimal digits in either case, with a sign. */
  lemma ParseHexExamples()
    ensures ParseInteger("ff", 16, W32) == Ok(255) && ParseInteger("-FF", 16, W32) == Ok(-255)
    ensures ParseInteger("fg", 16, W32).Err? && ParseInteger("-", 16, W32).Err? && ParseInteger("", 10, W32).Err?
  {
    assert "-FF"[1..] == "FF";
    assert Digits("ff", 16) == Some(255) by {
      assert "ff"[..1] == "f";
      assert "f"[..0] == "";
    }
    assert Digits("FF", 16) == Some(255) by {
      assert "FF"[..1] == "F";
      assert "F"[..0] == "";
    }
    assert DigitValue('g', 16).None?;
    assert "fg"[1] == 'g';
  }

  /** Parsing the decimal text of a number that fits the width gives the number back. */
  lemma ParseDecimalText(n: nat, w: Width)
    requires InRange(n, w)
    ensures ParseInteger(NatText(n), 10, w) == Ok(n)
  {
    NatTextParses(n, w);
  }

  lemma {:induction false} DigitsOfNatText(n: nat)
    ensures Digits(NatText(n), 10) == Some(n)
    decreases n
  {
    var t := NatText(n);
    assert t[|t| - 1] == Lsb(n);
    if n < 10 {
      assert t[..|t| - 1] == "";
    } else {
      DigitsOfNatText(n / 10);
      assert t[..|t| - 1] == NatText(n / 10);
    }
  }
}
