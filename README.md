# j4fry dojofaces store engine in Dafny

This project models the structure-driven store engine of j4fry dojofaces. The engine keeps a
server-side list of model objects in step with a Dojo grid store that the browser edits. The
store posts its data and changes back as lenient JSON.

The model covers these parts of the engine:

- **Structure descriptor reader** (`ConverterBase`, `storeconverterbase.dfy`). A store's
  structure descriptor is a JSON object with one entry per column. The reader turns it into
  the leaf bindings, child bindings, numeric flags, converter parameters and validator specs
  of the columns. Parsed descriptors are cached by their text. This file also holds the
  argument coercion of the reflective setters (`coerceTo`) and the per-column converter lookup
  with its cache (`determineConverter`).
- **Lenient JSON reader** (`Cursor`, `JsonReader`). It models `JSFJSONTokener.nextValue` and
  the tokener constructor of `JSFJSONObject`. The reader accepts unquoted scalars, `undefined`
  and `new Date(<13 digits>)`. A leaf packed in an array is unwrapped, and each string leaf is
  converted by its column's converter while the column's label is set on the component.
  `Cursor` is the character cursor of the base tokener. Each part is given twice: as
  functions (the specification) and as methods over a cursor, the component and the
  converter cache, each proved to compute what the functions say.
- **Serializer** (`Serializer`). This is `StoreConverter.getAsString` and its recursive
  `buildJSON`: one JSON object per item, leaf columns passed through their converters, and
  child collections serialized recursively.
- **Update engine** (`UpdateMap`). This is `StoreUpdateMap`:
  - `get` fills nine positional parameters;
  - `put` applies an array of insert, set and delete entries to the target list;
  - `getItem` finds an item by depth-first key search;
  - `setItem` sets attributes recursively.
- **Update validator** (`UpdateValidator`). It walks the posted updates depth first and
  validates each leaf below the second level with the validators its key declares.
- **Converter checks** (`BaseChecks`). These are the Required/RegExp/MinLength/MaxLength
  checks of `BaseConverter`, and the `${param}` templating of its exception messages.
- **Parameter-collecting map beans** (`GridEvents`, `ListMaps`, `ComboStores`, `Exec`,
  `Concat`). EL can only pass parameters through `map[key]` lookups, so each of these beans
  collects its parameters over successive `get` calls and then computes its result.
- **Component id beans** (`FormIds`, `JsIds`). `FormIdMap` finds the enclosing form of a
  component; `JsIdMap` turns a client id into a JavaScript identifier.

`Values` models the Java values that flow through the engine:
- null;
- strings, numbers, booleans and dates;
- JSON objects as ordered field lists, and JSON arrays;
- lists;
- model object references.

`Values` also holds the exceptions and the few `java.lang` string and number routines the
engine relies on.

`Faces` models the JSF world around the engine:
- the faces context, with the model objects that EL expressions reach and the value bound to
  the store's item variable;
- the component tree;
- the services the engine calls, as total functions in `Env`: EL method expressions,
  converters, validators, bean introspection and `Pattern.matches`.

Every class whose fields the source updates is a Dafny class. Its methods are proved to
compute a specification function of the old state.

## Model

| member | source | states |
|---|---|---|
| `Values.Lookup` | src/main/java/org/j4fry/dojo/converter/StoreConverterBase.java:91 | The value stored under a key of a JSON object is the value of some field with that name, and none when no field has it. |
| `Values.Get` | src/main/java/org/j4fry/dojo/converter/StoreConverterBase.java:95 | JSONObject.get: the stored value; a missing or null entry is a JSONException. |
| `Values.EntryGet` | src/main/java/org/j4fry/dojo/converter/StoreConverterBase.java:91 | get(key) for the key being iterated is that entry's own value. |
| `Values.LookupDistinct` | src/main/java/org/j4fry/dojo/converter/StoreConverterBase.java:89-91 | With distinct names, looking up the i-th name finds the i-th field. |
| `Values.GetOfEntry` | src/main/java/org/j4fry/dojo/converter/StoreConverterBase.java:89-91 | Iterating the keys of an object and getting each reads the entries in order. |
| `Values.Put` | src/main/java/org/j4fry/json/JSFJSONObject.java:114 | A map put replaces the value of an existing key in place and appends a new key last; the names keep their order. |
| `Values.PutNames` | src/main/java/org/j4fry/json/JSFJSONObject.java:114 | A put keeps the order of the names, and a new name goes last. |
| `Values.Remove` | src/main/java/org/j4fry/dojo/converter/StoreConverter.java:108 | Removing a key leaves no field of that name and keeps every other field in order. |
| `Values.PutKeepsDistinct` | src/main/java/org/j4fry/json/JSFJSONObject.java:114 | A put keeps the names of an object distinct. |
| `Values.RemoveKeepsDistinct` | src/main/java/org/j4fry/dojo/converter/StoreConverter.java:108 | A removal keeps the names of an object distinct. |
| `Values.JsonPutKeepsDistinct` | src/main/java/org/j4fry/dojo/converter/StoreConverter.java:108 | JSONObject.put, where a null value removes the key, keeps the names distinct. |
| `Values.Set` | src/main/java/org/j4fry/dojo/beans/ListToMapMap.java:66 | A put on the insertion-ordered map: the key maps to the new value, and a new key is appended to the key order. |
| `Values.SetKeepsValid` | src/main/java/org/j4fry/dojo/beans/ListToMapMap.java:66 | A put keeps the key list duplicate-free and equal to the key set of the map. |
| `Values.Quote` | src/main/java/org/j4fry/dojo/beans/ComboBoxStoreMap.java:73 | JSONObject.quote wraps the text in double quotes. |
| `Values.JsonText` | src/main/java/org/j4fry/dojo/converter/StoreConverter.java:77 | The text org.json writes: arrays and lists in brackets, objects in braces, strings, dates and model objects quoted. |
| `Values.JavaText` | src/main/java/org/j4fry/dojo/beans/StoreUpdateMap.java:241 | String.valueOf: a String is itself, null is "null", a JSON value is its JSON text, and a list is in brackets. |
| `Values.Trim` | src/main/java/org/j4fry/json/JSFJSONTokener.java:97 | String.trim: the result is the slice of the input from the first character above U+0020 to the last one; every character before and after it is at most U+0020. |
| `Values.TrimIdempotent` | src/main/java/org/j4fry/json/JSFJSONTokener.java:97 | Trimming twice is trimming once. |
| `Values.ReplaceAll` | src/main/java/org/j4fry/dojo/beans/StoreUpdateMap.java:147 | String.replace of a non-empty pattern; ReplaceAtFirstMatch and ReplaceWithoutMatch state what it does. |
| `Values.ReplaceAtFirstMatch` | src/main/java/org/j4fry/dojo/beans/StoreUpdateMap.java:147 | Left to right without overlaps: the text before the first occurrence is kept, that occurrence becomes the replacement, and replacing goes on after it. |
| `Values.ReplaceWithoutMatch` | src/main/java/org/j4fry/dojo/beans/StoreUpdateMap.java:147 | A text in which the pattern does not occur comes back unchanged. |
| `Values.EqualsIgnoreCase` | src/main/java/org/j4fry/dojo/converter/BaseConverter.java:44 | String.equalsIgnoreCase: equal texts match, and matching texts have the same length. |
| `Values.EqualsIgnoreCaseSymmetricTransitive` | src/main/java/org/j4fry/dojo/converter/BaseConverter.java:44 | Equality ignoring case is symmetric and transitive. |
| `Values.TrueInAnyCase` | src/main/java/org/j4fry/dojo/beans/StoreUpdateMap.java:190 | "true" in any mix of cases is true, and a flag that is true is four letters from t to e; "yes", "truth" and "" are not. |
| `Values.Narrow` | src/main/java/org/j4fry/dojo/converter/StoreConverterBase.java:288-299 | Two's-complement narrowing (longValue, intValue, shortValue, byteValue): the result lies in the width's range. |
| `Values.NarrowCongruent` | src/main/java/org/j4fry/dojo/converter/StoreConverterBase.java:288-299 | Narrowing keeps the number modulo 2 to the power of the width, and keeps numbers already in range unchanged. |
| `Values.ParseInteger` | src/main/java/org/j4fry/dojo/converter/BaseConverter.java:57-61 | Integer.parseInt / Long.parseLong: a result lies in the width's range and has the sign of the text; any failure is a NumberFormatException. |
| `Values.DigitsAccept` | src/main/java/org/j4fry/dojo/converter/BaseConverter.java:57-61 | A digit string has a value exactly when every character is a digit of the radix. |
| `Values.ParseIntegerAccepts` | src/main/java/org/j4fry/dojo/converter/BaseConverter.java:57-61 | What parses is non-empty and all digits, apart from a leading sign followed by at least one digit; everything else is a NumberFormatException. |
| `Values.IntTextParses` | src/main/java/org/j4fry/dojo/converter/BaseConverter.java:57-61 | The decimal text of an integer parses exactly when the integer fits the width, and then to the integer. |
| `Values.NatTextParses` | src/main/java/org/j4fry/dojo/converter/BaseConverter.java:57-61 | The same for a non-negative number. |
| `Values.NegativeTextParses` | src/main/java/org/j4fry/dojo/converter/BaseConverter.java:57-61 | A minus sign and the decimal text of m parse exactly when -m fits, and then to -m. |
| `Values.ParseIntText` | src/main/java/org/j4fry/dojo/converter/BaseConverter.java:57-61 | The decimal text of an integer that fits parses back to it. |
| `Values.ParseOutOfRangeFails` | src/main/java/org/j4fry/dojo/converter/BaseConverter.java:57-61 | The text of an integer outside the width does not parse: nothing wraps around. |
| `Values.ParsePlusText` | src/main/java/org/j4fry/dojo/converter/BaseConverter.java:57-61 | A non-negative number may also be written with a plus sign. |
| `Values.ParseHexExamples` | src/main/java/org/j4fry/json/JSFJSONTokener.java:71 | Hexadecimal digits parse in either case and with a sign; a non-digit, a lone sign and the empty text fail. |
| `Values.NumberTextParses` | src/main/java/org/j4fry/dojo/beans/StoreUpdateMap.java:241 | The text Java gives a number parses back to the number. |
| `Values.ParseDecimalText` | src/main/java/org/j4fry/json/JSFJSONTokener.java:103 | Parsing the decimal text of a number that fits the width gives the number back. |
| `Faces.Read` | src/main/java/org/j4fry/dojo/beans/ListToMapMap.java:63-65 | An EL getValue while an item is bound: the item itself for the item expression, otherwise the property of the bound model object, or null. |
| `Faces.Write` | src/main/java/org/j4fry/dojo/beans/StoreUpdateMap.java:306-311 | An EL setValue on the bound item changes only that object's property; anything but a model object is an error. |
| `Faces.StringAttr` | src/main/java/org/j4fry/dojo/converter/StoreConverter.java:59 | `(String) attributes.get(name)`: null when absent, the string when it is one, a ClassCastException otherwise. |
| `Faces.CastString` | src/main/java/org/j4fry/dojo/beans/ListToMapMap.java:46 | `(String) o`: null stays null, a String is kept, anything else is a ClassCastException. |
| `Faces.Bound` | src/main/java/org/j4fry/dojo/beans/JsIdMap.java:17 | `bindings.get(id)`: the bound component for a bound String id, otherwise null. |
| `Faces.FacesContext.AddMessage` | src/main/java/org/j4fry/dojo/beans/StoreUpdateMap.java:219 | Adding a message appends exactly that message and changes nothing else. |
| `Cursor.CleanAt` | src/main/java/org/j4fry/json/JSFJSONTokener.java:65 | nextClean: the character returned is NUL or above U+0020, and the cursor lands just after it. |
| `Cursor.CleanAtSkipsBlanks` | src/main/java/org/j4fry/json/JSFJSONTokener.java:65 | nextClean skips only characters up to U+0020. |
| `Cursor.TokenEnd` | src/main/java/org/j4fry/json/JSFJSONTokener.java:91-94 | An unquoted token ends at or after its start, within the text or at its end. |
| `Cursor.TokenEndStops` | src/main/java/org/j4fry/json/JSFJSONTokener.java:91-95 | The token ends at a control character or one of `,:]}/\"[{;=#`, and no such character comes before it. |
| `Cursor.TakeFrom` | src/main/java/org/j4fry/json/JSFJSONTokener.java:71 | next(n): it succeeds exactly when none of the next n characters is the end of the text, and then gives those n characters of the source and the position after them; otherwise it is the syntax error "Substring bounds error". |
| `Cursor.StringFrom` | src/main/java/org/j4fry/json/JSFJSONTokener.java:69-71 | nextString: a success ends after the start and within the text; a failure is a syntax error or the NumberFormatException of a bad `\u` escape. The lemmas below state the characters read. |
| `Cursor.StringFromEndsAtQuote` | src/main/java/org/j4fry/json/JSFJSONTokener.java:69-71 | A string read successfully ends just after a closing quote, and starts with what was read before. |
| `Cursor.UnterminatedString` | src/main/java/org/j4fry/json/JSFJSONTokener.java:69-71 | Plain characters followed by the end of the text, a newline or a carriage return are "Unterminated string". |
| `Cursor.EscapeIsEscape` | src/main/java/org/j4fry/dojo/beans/ComboBoxStoreMap.java:73 | What quote writes for a character is a plain character, a short escape or a `\u` escape of it. |
| `Cursor.EscapeReadsBack` | src/main/java/org/j4fry/json/JSFJSONTokener.java:69-71 | Any escape of a character is read as that character, and reading goes on right after it. |
| `Cursor.EscapesReadBack` | src/main/java/org/j4fry/json/JSFJSONTokener.java:69-71 | A run of escapes of the characters of a text, followed by a closing quote, is read as that text, and reading ends after the quote. |
| `Cursor.QuoteReadsBack` | src/main/java/org/j4fry/json/JSFJSONTokener.java:69-71 | The text JSONObject.quote writes, read from just after its opening quote, is the original text, and reading ends after its closing quote. |
| `Cursor.PlainStringReadsBack` | src/main/java/org/j4fry/json/JSFJSONTokener.java:69-71 | A string without escapes reads back as exactly its characters, ending after the closing quote. |
| `Cursor.Tokener.constructor` | src/main/java/org/j4fry/json/JSFJSONTokener.java:44-48 | A new tokener is at the start of the changed content. |
| `Cursor.Tokener.Next` | src/main/java/org/j4fry/json/JSFJSONTokener.java:93 | next(): the character at the cursor (NUL at the end), and the cursor advances by one. |
| `Cursor.Tokener.Back` | src/main/java/org/j4fry/json/JSFJSONTokener.java:95 | back(): the cursor steps one character back. |
| `Cursor.Tokener.NextClean` | src/main/java/org/j4fry/json/JSFJSONTokener.java:65 | The loop of nextClean computes CleanAt. |
| `Cursor.Tokener.NextN` | src/main/java/org/j4fry/json/JSFJSONTokener.java:71 | The loop of next(n) computes TakeFrom. |
| `Cursor.Tokener.NextString` | src/main/java/org/j4fry/json/JSFJSONTokener.java:69-71 | The loop of nextString computes StringFrom, including the escapes. |
| `Cursor.Tokener.ReadToken` | src/main/java/org/j4fry/json/JSFJSONTokener.java:90-95 | The accumulation loop returns the token up to TokenEnd and pushes the stopping character back. |
| `JsonReader.Scalar` | src/main/java/org/j4fry/json/JSFJSONTokener.java:97-105 | An unquoted token: empty after trimming is "Missing value", `undefined` is null, and any other text is the trimmed string itself (or a Date). |
| `JsonReader.ScalarsStayText` | src/main/java/org/j4fry/json/JSFJSONTokener.java:105 | Tokens are never read as numbers or booleans: `true` and ` 42 ` stay text. |
| `JsonReader.DateTokenReadsBack` | src/main/java/org/j4fry/json/JSFJSONTokener.java:102-104 | `new Date(<a 13-digit time stamp>)` reads as the Date of that time stamp. |
| `JsonReader.TimeStampDigits` | src/main/java/org/j4fry/json/JSFJSONTokener.java:103 | A 13-digit time stamp parses back with Long.parseLong. |
| `JsonReader.DateTokenReads` | src/main/java/org/j4fry/json/JSFJSONTokener.java:102-104 | `new Date(` and `)` around 13 characters that parse as n give the Date n. |
| `JsonReader.DateTokenParses` | src/main/java/org/j4fry/json/JSFJSONTokener.java:102-104 | A 23-character `new Date(...)` token is the Date of characters 9 to 21. |
| `JsonReader.DateTokenShape` | src/main/java/org/j4fry/json/JSFJSONTokener.java:102 | `new Date(` and `)` around 13 characters make a 23-character token that trimming keeps. |
| `JsonReader.KeyText` | src/main/java/org/j4fry/json/JSFJSONObject.java:72 | The key's toString(): a null key is an error, and a String is itself. |
| `JsonReader.KeySeparator` | src/main/java/org/j4fry/json/JSFJSONObject.java:78-85 | After a key only `:`, `=` or `=>` is accepted, and the value starts after it; anything else is "Expected a ':' after a key". |
| `JsonReader.PairSeparator` | src/main/java/org/j4fry/json/JSFJSONObject.java:120-132 | After a member only `,` or `;` (a `}` right after it closes the object) or `}` is accepted, and the cursor advances. |
| `JsonReader.ArraySeparator` | src/main/java/org/j4fry/json/JSFJSONTokener.java:75-78 | After an array element, a separator or the closing bracket moves the cursor forward. |
| `JsonReader.Unwrap` | src/main/java/org/j4fry/json/JSFJSONObject.java:87-91 | A non-empty array whose first element is a String stands for that String, whatever its length; any other value is kept. |
| `JsonReader.JsfReader` | src/main/java/org/j4fry/json/JSFJSONObject.java:92-104 | The reader of the text converts string leaves with the column converter lookup. |
| `JsonReader.ConvertRestoresLabel` | src/main/java/org/j4fry/json/JSFJSONObject.java:97-111 | A successful conversion leaves the label as it was before (put back, or removed when it was set only for the conversion), and every other attribute untouched. |
| `JsonReader.ConvertUsesConverter` | src/main/java/org/j4fry/json/JSFJSONObject.java:94-104 | Without a converter for the column, a string leaf stays as it is; with one, it becomes the converter's getAsObject of the string. |
| `JsonReader.QuotedValue` | src/main/java/org/j4fry/json/JSFJSONTokener.java:69-71 | A quoted value is a String, and the cursor lands after the closing quote. |
| `JsonReader.TokenValue` | src/main/java/org/j4fry/json/JSFJSONTokener.java:90-105 | An unquoted value ends within the text, and a value read advances the cursor. |
| `JsonReader.ValueF` | src/main/java/org/j4fry/json/JSFJSONTokener.java:64-106 | nextValue: a value read advances the cursor and stays within the text. |
| `JsonReader.ObjectF` | src/main/java/org/j4fry/json/JSFJSONObject.java:60-69 | The object constructor yields a JSON object and advances the cursor. |
| `JsonReader.Members` | src/main/java/org/j4fry/json/JSFJSONObject.java:63-133 | The member loop yields a JSON object and advances the cursor. |
| `JsonReader.MemberKey` | src/main/java/org/j4fry/json/JSFJSONObject.java:70-72 | The loop at a key yields an object past the key. |
| `JsonReader.MemberValue` | src/main/java/org/j4fry/json/JSFJSONObject.java:78-86 | The loop after a key yields an object past the key. |
| `JsonReader.Member` | src/main/java/org/j4fry/json/JSFJSONObject.java:86-132 | The loop after a value yields an object past the value. |
| `JsonReader.MemberLeaf` | src/main/java/org/j4fry/json/JSFJSONObject.java:87-113 | The stored value is the unwrapped value, converted only when it is a string; the cursor does not move. |
| `JsonReader.Stored` | src/main/java/org/j4fry/json/JSFJSONObject.java:114-132 | The loop after a member was stored yields an object past it. |
| `JsonReader.ArrayF` | src/main/java/org/j4fry/json/JSFJSONTokener.java:75-78 | The array reader yields a JSON array and advances the cursor. |
| `JsonReader.Elements` | src/main/java/org/j4fry/json/JSFJSONTokener.java:75-78 | The element loop yields a JSON array and advances the cursor. |
| `JsonReader.ElementValue` | src/main/java/org/j4fry/json/JSFJSONTokener.java:75-78 | An element never moves the cursor back. |
| `JsonReader.Element` | src/main/java/org/j4fry/json/JSFJSONTokener.java:75-78 | The loop after an element yields an array past it. |
| `JsonReader.ObjectIsClosed` | src/main/java/org/j4fry/json/JSFJSONObject.java:60-133 | An object read completely has distinct member names and ends just after a `}`. |
| `JsonReader.MembersAreClosed` | src/main/java/org/j4fry/json/JSFJSONObject.java:63-133 | The member loop, from distinct names so far, ends in a closed object. |
| `JsonReader.MemberKeyIsClosed` | src/main/java/org/j4fry/json/JSFJSONObject.java:70-72 | The same, from a key. |
| `JsonReader.MemberValueIsClosed` | src/main/java/org/j4fry/json/JSFJSONObject.java:78-86 | The same, after a key. |
| `JsonReader.MemberIsClosed` | src/main/java/org/j4fry/json/JSFJSONObject.java:86-114 | The same, after a value; a repeated key keeps its first place and takes the later value. |
| `JsonReader.StoredIsClosed` | src/main/java/org/j4fry/json/JSFJSONObject.java:120-132 | The same, after a member was stored. |
| `JsonReader.PairSeparatorCloses` | src/main/java/org/j4fry/json/JSFJSONObject.java:120-129 | A pair separator that closes the object has just read a `}`. |
| `JsonReader.QuotedStringReads` | src/main/java/org/j4fry/json/JSFJSONTokener.java:69-71 | A quoted string without escapes reads as its characters, and the cursor stops after the closing quote. |
| `JsonReader.ValueKinds` | src/main/java/org/j4fry/json/JSFJSONTokener.java:68-78 | The first visible character decides the kind of value: `{` gives an object, `[` or `(` an array, anything else a string, a null or a Date. |
| `JsonReader.EmptyObjectReads` | src/main/java/org/j4fry/json/JSFJSONObject.java:60-69 | `{}` and `{ }` read as the empty object. |
| `JsonReader.UnterminatedObject` | src/main/java/org/j4fry/json/JSFJSONObject.java:66-67 | Text that ends inside an object is "A JSONObject text must end with '}'". |
| `JsonReader.NextValue` | src/main/java/org/j4fry/json/JSFJSONTokener.java:64-106 | nextValue on the tokener, component and converter cache computes ValueF: the same value or exception, attributes and caches, and the same cursor after a success. |
| `JsonReader.ReadQuoted` | src/main/java/org/j4fry/json/JSFJSONTokener.java:69-71 | Computes QuotedValue on the tokener. |
| `JsonReader.ReadScalar` | src/main/java/org/j4fry/json/JSFJSONTokener.java:90-105 | Computes TokenValue on the tokener. |
| `JsonReader.SkipKeySeparator` | src/main/java/org/j4fry/json/JSFJSONObject.java:78-85 | Computes KeySeparator and leaves the cursor at the value. |
| `JsonReader.ReadPairSeparator` | src/main/java/org/j4fry/json/JSFJSONObject.java:120-132 | Computes PairSeparator and leaves the cursor after it. |
| `JsonReader.ReadArraySeparator` | src/main/java/org/j4fry/json/JSFJSONTokener.java:75-78 | Computes ArraySeparator and leaves the cursor after it. |
| `JsonReader.ConvertLeaf` | src/main/java/org/j4fry/json/JSFJSONObject.java:94-112 | The conversion on the component and the converter cache computes the reader's leaf conversion. |
| `JsonReader.ReadMemberLeaf` | src/main/java/org/j4fry/json/JSFJSONObject.java:87-113 | Computes MemberLeaf. |
| `JsonReader.FinishMember` | src/main/java/org/j4fry/json/JSFJSONObject.java:86-132 | One pass after a value: finished with Member's outcome, or at the next member with the same remaining outcome and the cursor advanced. |
| `JsonReader.MemberStep` | src/main/java/org/j4fry/json/JSFJSONObject.java:63-133 | One pass of the loop: finished with Members' outcome, or at the next member with the same remaining outcome and the cursor advanced. |
| `JsonReader.KeyStep` | src/main/java/org/j4fry/json/JSFJSONObject.java:70-72 | One pass from a key, as MemberKey. |
| `JsonReader.ValueStep` | src/main/java/org/j4fry/json/JSFJSONObject.java:78-86 | One pass after a key, as MemberValue. |
| `JsonReader.ReadObject` | src/main/java/org/j4fry/json/JSFJSONObject.java:52-134 | The JSFJSONObject constructor on the tokener computes ObjectF. |
| `JsonReader.ReadMembers` | src/main/java/org/j4fry/json/JSFJSONObject.java:63-133 | The `for (;;)` member loop computes Members. |
| `JsonReader.ElementStep` | src/main/java/org/j4fry/json/JSFJSONTokener.java:75-78 | One pass of the array loop: finished with Elements' outcome, or at the next element. |
| `JsonReader.ReadElementValue` | src/main/java/org/j4fry/json/JSFJSONTokener.java:75-78 | Computes ElementValue. |
| `JsonReader.FinishElement` | src/main/java/org/j4fry/json/JSFJSONTokener.java:75-78 | The separator after an element, as Element. |
| `JsonReader.ReadArray` | src/main/java/org/j4fry/json/JSFJSONTokener.java:75-78 | The array reader on the tokener computes ArrayF. |
| `JsonReader.ReadElements` | src/main/java/org/j4fry/json/JSFJSONTokener.java:75-78 | The element loop computes Elements. |
| `ConverterBase.GetString` | src/main/java/org/j4fry/dojo/converter/StoreConverterBase.java:95 | `(String) obj.get(k)`: the string when the entry is one; a missing entry is a JSONException and another value a ClassCastException. |
| `ConverterBase.EntryString` | src/main/java/org/j4fry/dojo/converter/StoreConverterBase.java:114 | `(String) obj.get(key)` for the key being iterated. |
| `ConverterBase.ArrayGet` | src/main/java/org/j4fry/dojo/converter/StoreConverterBase.java:128 | JSONArray.get(i): the element, and a JSONException for a null or missing one. |
| `ConverterBase.Column` | src/main/java/org/j4fry/dojo/converter/StoreConverterBase.java:90-137 | Reading one column keeps null sinks null, and changes only the entries of that column's key. |
| `ConverterBase.Bind` | src/main/java/org/j4fry/dojo/converter/StoreConverterBase.java:93-98 | An object column's `el` goes into the child bindings or the leaf bindings. |
| `ConverterBase.Settings` | src/main/java/org/j4fry/dojo/converter/StoreConverterBase.java:99-134 | The numeric flag, converter and validator stages keep null sinks null. |
| `ConverterBase.Validators` | src/main/java/org/j4fry/dojo/converter/StoreConverterBase.java:120-133 | The validator list of the column is stored before it is filled. |
| `ConverterBase.ColumnsFrom` | src/main/java/org/j4fry/dojo/converter/StoreConverterBase.java:89-138 | The columns are read in key order and the first exception stops the reading; null sinks stay null. |
| `ConverterBase.TokenizeSpec` | src/main/java/org/j4fry/dojo/converter/StoreConverterBase.java:83-139 | A null structure changes nothing; a cached structure is read from the cache; any other is parsed and cached only when the parse succeeds. |
| `ConverterBase.CacheIsTransparent` | src/main/java/org/j4fry/dojo/converter/StoreConverterBase.java:84-88 | A coherent cache gives the same maps as a fresh parse, and stays coherent. |
| `ConverterBase.SecondReadUsesCache` | src/main/java/org/j4fry/dojo/converter/StoreConverterBase.java:84-88 | Once a structure has been read, a second read uses the cached copy and leaves the cache unchanged. |
| `ConverterBase.StringColumnIsLeaf` | src/main/java/org/j4fry/dojo/converter/StoreConverterBase.java:135-137 | A String column becomes a leaf binding whose path is that string. |
| `ConverterBase.ObjectColumnBinding` | src/main/java/org/j4fry/dojo/converter/StoreConverterBase.java:93-98 | An object column goes into the child bindings when its `children` is "true" or TRUE and child bindings were asked for, otherwise into the leaf bindings; never into both. |
| `ConverterBase.NumericFlag` | src/main/java/org/j4fry/dojo/converter/StoreConverterBase.java:99-103 | The numeric flag is recorded exactly when `numeric` is "true" or Boolean TRUE. |
| `ConverterBase.ConverterStringIsId` | src/main/java/org/j4fry/dojo/converter/StoreConverterBase.java:108-109 | A String converter entry becomes `{id: s}`. |
| `ConverterBase.ConverterParamsOk` | src/main/java/org/j4fry/dojo/converter/StoreConverterBase.java:110-116 | Copying the converter attributes succeeds exactly when they are all Strings. |
| `ConverterBase.ConverterParamsCopy` | src/main/java/org/j4fry/dojo/converter/StoreConverterBase.java:110-116 | Copying adds the attributes after the existing keys, each with its String value. |
| `ConverterBase.ConverterObjectNeedsStrings` | src/main/java/org/j4fry/dojo/converter/StoreConverterBase.java:110-116 | An object converter entry is read exactly when every attribute is a String. |
| `ConverterBase.ConverterObjectCopiesAll` | src/main/java/org/j4fry/dojo/converter/StoreConverterBase.java:104-118 | An object converter entry of String attributes copies every attribute, in order. |
| `ConverterBase.ValidatorStringIsId` | src/main/java/org/j4fry/dojo/converter/StoreConverterBase.java:144-145 | A String validator spec becomes `{id: s}`. |
| `ConverterBase.ValidatorListFromIsOnePerElement` | src/main/java/org/j4fry/dojo/converter/StoreConverterBase.java:125-129 | A validators array gives one spec per element, in order; the first failure stops the list. |
| `ConverterBase.ValidatorListFromReadsElements` | src/main/java/org/j4fry/dojo/converter/StoreConverterBase.java:125-129 | Each spec added is the reading of the element at its position. |
| `ConverterBase.ValidatorListShape` | src/main/java/org/j4fry/dojo/converter/StoreConverterBase.java:120-133 | An array gives one spec per element, in order; anything else gives one spec. |
| `ConverterBase.StructureCache.constructor` | src/main/java/org/j4fry/dojo/converter/StoreConverterBase.java:66 | The static structure cache starts empty. |
| `ConverterBase.StructureCache.Tokenize` | src/main/java/org/j4fry/dojo/converter/StoreConverterBase.java:77-140 | tokenizeStructure on the cache computes TokenizeSpec, and each text is parsed at most once. |
| `ConverterBase.ReadColumns` | src/main/java/org/j4fry/dojo/converter/StoreConverterBase.java:89-138 | The column loop computes ColumnsFrom. |
| `ConverterBase.ReadColumn` | src/main/java/org/j4fry/dojo/converter/StoreConverterBase.java:90-137 | One column computes Column. |
| `ConverterBase.CopyConverterParams` | src/main/java/org/j4fry/dojo/converter/StoreConverterBase.java:105-118 | The converter attribute loop computes the column's converter parameters. |
| `ConverterBase.ReadValidators` | src/main/java/org/j4fry/dojo/converter/StoreConverterBase.java:120-133 | The validators loop computes the column's validator specs. |
| `ConverterBase.ReadValidatorParams` | src/main/java/org/j4fry/dojo/converter/StoreConverterBase.java:142-154 | readValidator: a String is the id, and an object gives all its attributes. |
| `ConverterBase.CoerceTo` | src/main/java/org/j4fry/dojo/converter/StoreConverterBase.java:279-309 | coerceTo: null is a NullPointerException; an assignable value is returned unchanged; a Number for a long/int/short/byte target, when not assignable, is narrowed to that width; a non-numeric target that is not assignable gives null, and so does a value that is neither a Number nor a String for a numeric target. |
| `ConverterBase.CoercedNumberFits` | src/main/java/org/j4fry/dojo/converter/StoreConverterBase.java:286-299 | A narrowed number fits its width and differs from the original by a multiple of 2 to the width. |
| `ConverterBase.SetConverterAttribute` | src/main/java/org/j4fry/dojo/converter/StoreConverterBase.java:224-251 | A converter property set by reflection: none of that name is skipped, no setter is a NullPointerException, and a writable one succeeds exactly when the coerced value is accepted by its setter; failures are IllegalArgumentException or NullPointerException. |
| `ConverterBase.ConfigureFrom` | src/main/java/org/j4fry/dojo/converter/StoreConverterBase.java:197-274 | When only lang, country, label and id are left, the result is setting the locale from the last lang and country, or nothing without a lang. |
| `ConverterBase.ParamsOf` | src/main/java/org/j4fry/dojo/converter/StoreConverterBase.java:171 | The converter parameters of a column, when it has any. |
| `ConverterBase.Locate` | src/main/java/org/j4fry/dojo/converter/StoreConverterBase.java:167-194 | A cached converter is reused and nothing changes. Otherwise an `id` decides: the converter it creates, or a ConverterException. Without one, the value binding is created once and remembered, and the type of its value decides: the converter registered for that type, or for java.lang.Number the standard number converter or a FacesException. Without a binding there is no converter. |
| `ConverterBase.Determine` | src/main/java/org/j4fry/dojo/converter/StoreConverterBase.java:156-277 | determineConverter: a cached converter is returned as is; a converter found is stored under its key. |
| `ConverterBase.FoundConverterIsCached` | src/main/java/org/j4fry/dojo/converter/StoreConverterBase.java:195-196 | Any converter the search finds is stored under its key, even when configuring it then fails; a cached converter leaves the cache as it was. |
| `ConverterBase.IdBeatsType` | src/main/java/org/j4fry/dojo/converter/StoreConverterBase.java:168-178 | A converter id wins over the value binding: the search then never looks at the bindings. |
| `ConverterBase.BindingIsRemembered` | src/main/java/org/j4fry/dojo/converter/StoreConverterBase.java:179-192 | The value binding of a column is created once: a second search with other binding strings finds what the first found. |
| `ConverterBase.ConverterCache.constructor` | src/main/java/org/j4fry/dojo/converter/StoreConverterBase.java:59-62 | A converter instance starts with empty converter and binding caches. |
| `ConverterBase.ConverterCache.DetermineConverter` | src/main/java/org/j4fry/dojo/converter/StoreConverterBase.java:156-277 | determineConverter on the cache computes Determine. |
| `ConverterBase.ConverterCache.LocateConverter` | src/main/java/org/j4fry/dojo/converter/StoreConverterBase.java:167-194 | The search on the cache computes Locate. |
| `ConverterBase.Configure` | src/main/java/org/j4fry/dojo/converter/StoreConverterBase.java:197-274 | The converter attribute loop sets lang and country last, as a locale. |
| `Serializer.Rendered` | src/main/java/org/j4fry/dojo/converter/StoreConverter.java:98-107 | Null, Boolean and numeric-flagged values are stored raw without consulting a converter. |
| `Serializer.NoConverterStoresRaw` | src/main/java/org/j4fry/dojo/converter/StoreConverter.java:102-108 | When the column has no converter, the value read is stored as it is. |
| `Serializer.ConverterTextIsStored` | src/main/java/org/j4fry/dojo/converter/StoreConverter.java:104-108 | A converter's text is what is stored. |
| `Serializer.LeafFields` | src/main/java/org/j4fry/dojo/converter/StoreConverter.java:95-109 | The leaf loop keeps the item bound, and changes only the fields named by the column keys it has still to visit; LeafFieldsStoreRendered states what those fields hold. |
| `Serializer.LeafFieldsStoreRendered` | src/main/java/org/j4fry/dojo/converter/StoreConverter.java:95-109 | With distinct column keys, every leaf column visited holds what it renders for the bound item in the state the loop reaches it in, and has no entry when that is null (JSONObject.put with null). |
| `Serializer.ChildFieldsKeepLeaves` | src/main/java/org/j4fry/dojo/converter/StoreConverter.java:112-119 | The child loop leaves every name that is not a child column as the leaf loop stored it. |
| `Serializer.BuildJSON` | src/main/java/org/j4fry/dojo/converter/StoreConverter.java:84-124 | buildJSON gives one JSON object per item. |
| `Serializer.Items` | src/main/java/org/j4fry/dojo/converter/StoreConverter.java:87-122 | The item loop adds one object per remaining item to those built so far. |
| `Serializer.ItemObject` | src/main/java/org/j4fry/dojo/converter/StoreConverter.java:89-121 | The result for one item is a JSON object; ItemObjectLeaf states its leaf fields. |
| `Serializer.ItemObjectLeaf` | src/main/java/org/j4fry/dojo/converter/StoreConverter.java:89-119 | An item's object holds under each leaf column that is not a child column the value the column renders for that item, and no entry when it is null. |
| `Serializer.RawLeafIsStored` | src/main/java/org/j4fry/dojo/converter/StoreConverter.java:98-108 | A null, Boolean or numeric-flagged leaf is stored as read for the item, and a null one is left out. |
| `Serializer.UnconvertedLeafIsStored` | src/main/java/org/j4fry/dojo/converter/StoreConverter.java:102-108 | A leaf without a converter is stored as read for the item, and a null one is left out. |
| `Serializer.ItemsAreItemObjects` | src/main/java/org/j4fry/dojo/converter/StoreConverter.java:87-122 | The k-th object of the loop is the object of the k-th item, built in the state the loop reaches it in. |
| `Serializer.BuiltRawLeaf` | src/main/java/org/j4fry/dojo/converter/StoreConverter.java:87-122 | In a successful buildJSON, every item's object stores its raw leaf columns as read for that item. |
| `Serializer.ChildFields` | src/main/java/org/j4fry/dojo/converter/StoreConverter.java:112-119 | The child loop gives a JSON object. |
| `Serializer.FirstObjectIsFirstItem` | src/main/java/org/j4fry/dojo/converter/StoreConverter.java:87-121 | The first object built is that of the first item, built from the state the loop starts in. |
| `Serializer.NonCollectionChildIsSkipped` | src/main/java/org/j4fry/dojo/converter/StoreConverter.java:115-118 | A child column whose value is not a collection adds nothing to the object. |
| `Serializer.CollectionChildIsSerialized` | src/main/java/org/j4fry/dojo/converter/StoreConverter.java:115-118 | A child column whose value is a collection holds the serialization of that collection. |
| `Serializer.LeavesReadTheItem` | src/main/java/org/j4fry/dojo/converter/StoreConverter.java:89-98 | Building an object binds its item before any column is read. |
| `Serializer.LeafNamesDistinct` | src/main/java/org/j4fry/dojo/converter/StoreConverter.java:108 | The leaf stage keeps the member names distinct. |
| `Serializer.ChildNamesDistinct` | src/main/java/org/j4fry/dojo/converter/StoreConverter.java:117 | The child stage keeps the member names distinct. |
| `Serializer.ObjectNamesDistinct` | src/main/java/org/j4fry/dojo/converter/StoreConverter.java:92-121 | Every object built for an item has distinct member names. |
| `Serializer.BindingIsLeftOnLastItem` | src/main/java/org/j4fry/dojo/converter/StoreConverter.java:87-89 | Without child columns, the binding is left on the last item; buildJSON does not restore it. |
| `Serializer.NoColumnsGiveEmptyObjects` | src/main/java/org/j4fry/dojo/converter/StoreConverter.java:84-123 | Without columns, each item becomes an empty object. |
| `Serializer.Wrap` | src/main/java/org/j4fry/dojo/converter/StoreConverter.java:79-81 | A JSONException is rethrown as a ConverterException with its message; other exceptions pass unchanged. |
| `Serializer.SinksOf` | src/main/java/org/j4fry/dojo/converter/StoreConverter.java:64 | getAsString fills every column map except the validator specs. |
| `Serializer.Absorb` | src/main/java/org/j4fry/dojo/converter/StoreConverter.java:64-75 | Reading the descriptor changes the column maps and the structure cache, and nothing else. |
| `Serializer.AsString` | src/main/java/org/j4fry/dojo/converter/StoreConverter.java:54-82 | getAsString gives "[]" for null or a String, and leaves the state unchanged; a value that is not a collection is a ClassCastException. |
| `Serializer.Serialize` | src/main/java/org/j4fry/dojo/converter/StoreConverter.java:66-78 | A successful serialization is the JSON text of an array holding one JSON object per item; a failure is never a bare JSONException; the descriptor caches stay as they were. SerializedObjects and SerializedRawLeaf state what the objects hold. |
| `Serializer.SerializedObjects` | src/main/java/org/j4fry/dojo/converter/StoreConverter.java:77 | The text is the JSON array of buildJSON's objects, the k-th being the object of the k-th item. |
| `Serializer.SerializedRawLeaf` | src/main/java/org/j4fry/dojo/converter/StoreConverter.java:77-108 | In the text, the object of every item holds each raw leaf column (not a child column) as read for that item, and has no entry for a null one. |
| `Serializer.EmptyCollectionIsEmptyStore` | src/main/java/org/j4fry/dojo/converter/StoreConverter.java:77 | The text of an empty collection is "[]". |
| `Serializer.AsObject` | src/main/java/org/j4fry/dojo/converter/StoreConverter.java:50-52 | getAsObject ignores the store text and returns the component's `items` attribute. |
| `Serializer.RenderLeaf` | src/main/java/org/j4fry/dojo/converter/StoreConverter.java:100-107 | The converter step on the converter cache computes Rendered. |
| `Serializer.FillLeaves` | src/main/java/org/j4fry/dojo/converter/StoreConverter.java:95-109 | The leaf loop computes LeafFields. |
| `Serializer.BuildArray` | src/main/java/org/j4fry/dojo/converter/StoreConverter.java:84-124 | buildJSON on the faces context and the converter cache computes BuildJSON. |
| `Serializer.BuildObject` | src/main/java/org/j4fry/dojo/converter/StoreConverter.java:89-121 | One item computes ItemObject. |
| `Serializer.FillChildren` | src/main/java/org/j4fry/dojo/converter/StoreConverter.java:112-119 | The child loop computes ChildFields. |
| `Serializer.StoreConverter.constructor` | src/main/java/org/j4fry/dojo/converter/StoreConverter.java:46-48 | A new converter has empty column maps and caches. |
| `Serializer.StoreConverter.GetAsString` | src/main/java/org/j4fry/dojo/converter/StoreConverter.java:54-82 | getAsString on the converter, context and structure cache computes AsString. |
| `Serializer.StoreConverter.GetAsObject` | src/main/java/org/j4fry/dojo/converter/StoreConverter.java:50-52 | Computes AsObject. |
| `UpdateMap.GetStep` | src/main/java/org/j4fry/dojo/beans/StoreUpdateMap.java:91-133 | get: the first call keeps a List argument as the list and always moves on; each later call fills the next parameter and returns this; with all nine filled it returns null and changes nothing. |
| `UpdateMap.Feed` | src/main/java/org/j4fry/dojo/beans/StoreUpdateMap.java:91-133 | Successive get calls return one reply each. |
| `UpdateMap.FeedFillsInOrder` | src/main/java/org/j4fry/dojo/beans/StoreUpdateMap.java:98-133 | Null or String arguments fill the string parameters in order, each returning this, until all nine are filled; later calls return null and change nothing. |
| `UpdateMap.TenCalls` | src/main/java/org/j4fry/dojo/beans/StoreUpdateMap.java:91-133 | On a new map, nine calls fill list, var, key, onInsert, modelClass, onUpdate, autoUpdate, onDelete and autoDelete in that order, all returning this; the tenth returns null. |
| `UpdateMap.FindList` | src/main/java/org/j4fry/dojo/beans/StoreUpdateMap.java:232-258 | The recursive getItem changes no model object and leaves the target list as it was. |
| `UpdateMap.FindChildren` | src/main/java/org/j4fry/dojo/beans/StoreUpdateMap.java:246-255 | The search through the child collections changes no model object. |
| `UpdateMap.FindTop` | src/main/java/org/j4fry/dojo/beans/StoreUpdateMap.java:224-259 | getItem on the target list: a null list finds nothing and changes nothing. |
| `UpdateMap.FoundHasKey` | src/main/java/org/j4fry/dojo/beans/StoreUpdateMap.java:237-243 | A non-null item found has the key searched for. |
| `UpdateMap.FoundInChildrenHasKey` | src/main/java/org/j4fry/dojo/beans/StoreUpdateMap.java:246-255 | The same, for an item found in a child collection. |
| `UpdateMap.FirstWithKey` | src/main/java/org/j4fry/dojo/beans/StoreUpdateMap.java:232-243 | The first position from i on whose item has the key, or -1: no earlier item has it. |
| `UpdateMap.FlatFindIsFirstMatch` | src/main/java/org/j4fry/dojo/beans/StoreUpdateMap.java:232-258 | Without child bindings, getItem is the first item whose key matches, and null when none does. |
| `UpdateMap.NotFoundMeansNoKey` | src/main/java/org/j4fry/dojo/beans/StoreUpdateMap.java:232-258 | Whatever the child bindings, a search that answers null saw no item with the key in the list searched, unless a null item has the key. |
| `UpdateMap.FindIsFirstInPreorder` | src/main/java/org/j4fry/dojo/beans/StoreUpdateMap.java:224-259 | With one child binding, getItem answers what the pre-order reference walk answers: the first item of the whole tree with the key, else the exception that ended the walk, else null. |
| `UpdateMap.SecondChildReadFromLastVisited` | src/main/java/org/j4fry/dojo/beans/StoreUpdateMap.java:234-252 | With two child bindings the second child collection is read from the item the first search left bound, so an item present under the top item is not found. |
| `UpdateMap.Attach` | src/main/java/org/j4fry/dojo/beans/StoreUpdateMap.java:285 | Binding a value to an expression of the target object writes that value into the target's property and leaves every other model object as it was. |
| `UpdateMap.ObjectCast` | src/main/java/org/j4fry/dojo/beans/StoreUpdateMap.java:287 | `(JSONObject) x`: the fields of an object, null stays empty-handed, anything else is a ClassCastException. |
| `UpdateMap.SetLeaf` | src/main/java/org/j4fry/dojo/beans/StoreUpdateMap.java:294-313 | A leaf that is undeclared or read-only is skipped; the whole-item expression replaces the item; a success returns the item afterwards; a failure changes nothing; the bound item and the list stay. |
| `UpdateMap.SetLeafWritesColumn` | src/main/java/org/j4fry/dojo/beans/StoreUpdateMap.java:294-313 | A leaf changes no model object but the current one; a writable column other than the whole item is set exactly when the item is a live object and the value is not an array starting with null, and reads back as the leaf value. |
| `UpdateMap.SetItem` | src/main/java/org/j4fry/dojo/beans/StoreUpdateMap.java:261-317 | setItem never removes model objects and keeps the list; no attributes leave the item bound and returned; a success returns ItemAfter, the item as the whole-item attributes last replaced it. |
| `UpdateMap.FirstLeafGoesToItem` | src/main/java/org/j4fry/dojo/beans/StoreUpdateMap.java:272-311 | setItem binds the item before it sets anything: a first leaf attribute is written to the item whatever was bound before. |
| `UpdateMap.ItemAfterIsAReplacement` | src/main/java/org/j4fry/dojo/beans/StoreUpdateMap.java:299-316 | The item returned is the item given when no attribute replaces it, and otherwise the value of one that does. |
| `UpdateMap.SetAttrs` | src/main/java/org/j4fry/dojo/beans/StoreUpdateMap.java:273-315 | The attribute loop never removes model objects. |
| `UpdateMap.SetAttr` | src/main/java/org/j4fry/dojo/beans/StoreUpdateMap.java:277-314 | One attribute never removes model objects. |
| `UpdateMap.NewChildren` | src/main/java/org/j4fry/dojo/beans/StoreUpdateMap.java:282-289 | The child list holds one new item per element, and no model object is removed. |
| `UpdateMap.NewChild` | src/main/java/org/j4fry/dojo/beans/StoreUpdateMap.java:286-288 | One element of a child array adds a new model object and keeps the list. |
| `UpdateMap.NewChildrenStep` | src/main/java/org/j4fry/dojo/beans/StoreUpdateMap.java:282-289 | An object element gives a new item that is appended to the child list and bound again, or the exception setting it raised. |
| `UpdateMap.NewChildrenStops` | src/main/java/org/j4fry/dojo/beans/StoreUpdateMap.java:283-287 | An element missing from the array or not an object ends the child list with its exception before any item is made. |
| `UpdateMap.NonArrayChildIsCleared` | src/main/java/org/j4fry/dojo/beans/StoreUpdateMap.java:290-292 | A child attribute whose value is not an array is set to null. |
| `UpdateMap.LeafArrayGivesFirstElement` | src/main/java/org/j4fry/dojo/beans/StoreUpdateMap.java:302-309 | A leaf array value is written as its first element, or as null when it is empty. |
| `UpdateMap.OneChildPerElement` | src/main/java/org/j4fry/dojo/beans/StoreUpdateMap.java:282-289 | A child array gives one new, recursively set item per element, and the heap grows by at least one object per element. |
| `UpdateMap.ChildListIsBound` | src/main/java/org/j4fry/dojo/beans/StoreUpdateMap.java:284-289 | The list bound to the child attribute holds exactly the items built. |
| `UpdateMap.IndexIn` | src/main/java/org/j4fry/dojo/beans/StoreUpdateMap.java:192 | List.indexOf: the first position of the item, or -1 when it is absent. |
| `UpdateMap.RemoveFirst` | src/main/java/org/j4fry/dojo/beans/StoreUpdateMap.java:213 | List.remove(Object): removes exactly the first occurrence, or nothing when the item is absent. |
| `UpdateMap.Insert` | src/main/java/org/j4fry/dojo/beans/StoreUpdateMap.java:163-177 | An insert never removes model objects, and changes the list only when it succeeds, and then by appending one non-null item. |
| `UpdateMap.InsertWithoutItemOrList` | src/main/java/org/j4fry/dojo/beans/StoreUpdateMap.java:163-177 | An entry without an insert changes nothing; an insert without a target list fails and leaves no list. |
| `UpdateMap.Created` | src/main/java/org/j4fry/dojo/beans/StoreUpdateMap.java:170-174 | A new instance of the model class, set from the insert object, never removes model objects. |
| `UpdateMap.Appended` | src/main/java/org/j4fry/dojo/beans/StoreUpdateMap.java:175-176 | A null target list is an IllegalArgumentException; a non-null item is appended; a null item changes nothing. |
| `UpdateMap.SetEntries` | src/main/java/org/j4fry/dojo/beans/StoreUpdateMap.java:180-201 | The keys of a set in order: no model object is removed, the list stays null or keeps its length, and a set that autoUpdate forbids changes neither. |
| `UpdateMap.Update` | src/main/java/org/j4fry/dojo/beans/StoreUpdateMap.java:183-199 | One set key: a set that autoUpdate forbids changes nothing; otherwise no model object is removed, and the target list keeps being null or keeps its length. |
| `UpdateMap.UpdateItem` | src/main/java/org/j4fry/dojo/beans/StoreUpdateMap.java:192-198 | Setting an item of a non-null list removes no model object and keeps the list's length. |
| `UpdateMap.UpdateKeepsOtherPositions` | src/main/java/org/j4fry/dojo/beans/StoreUpdateMap.java:192-198 | A set changes at most one position of the target list: the first position of its item. |
| `UpdateMap.UpdateOutsideListKeepsList` | src/main/java/org/j4fry/dojo/beans/StoreUpdateMap.java:192-198 | A set whose item is not in the target list leaves the list as it was. |
| `UpdateMap.UpdateInListReplaces` | src/main/java/org/j4fry/dojo/beans/StoreUpdateMap.java:192-198 | A set applied to an item of the target list replaces the item's first position by the item set. |
| `UpdateMap.Delete` | src/main/java/org/j4fry/dojo/beans/StoreUpdateMap.java:204-215 | A delete changes no model object, never nulls or creates the list, and shortens it by at most one; with autoDelete forbidding it the list stays. |
| `UpdateMap.DeleteCases` | src/main/java/org/j4fry/dojo/beans/StoreUpdateMap.java:204-215 | An entry without a delete changes nothing; a delete that is not a String is a ClassCastException; a delete that succeeds under autoDelete removes from the target list the first occurrence of whatever getItem found, for any child bindings. |
| `UpdateMap.Entry` | src/main/java/org/j4fry/dojo/beans/StoreUpdateMap.java:159-216 | One entry: no model object is removed, and the target list stays null or non-null. |
| `UpdateMap.EntryChangesLengthByOne` | src/main/java/org/j4fry/dojo/beans/StoreUpdateMap.java:159-216 | An entry adds at most one item to the target list and removes at most one. |
| `UpdateMap.Entries` | src/main/java/org/j4fry/dojo/beans/StoreUpdateMap.java:159-216 | The entries in order: no model object is removed, and the target list stays null or non-null. |
| `UpdateMap.EntriesAreObjects` | src/main/java/org/j4fry/dojo/beans/StoreUpdateMap.java:159-160 | Entries succeed only when every one of them is a JSON object. |
| `UpdateMap.PutOutcome` | src/main/java/org/j4fry/dojo/beans/StoreUpdateMap.java:138-222 | put: nothing happens unless `updates` is a JSON array; success returns `updates`; an exception adds exactly one message and returns null. |
| `UpdateMap.Apply` | src/main/java/org/j4fry/dojo/beans/StoreUpdateMap.java:146-217 | The try block: a null structure is a NullPointerException and one that is not a String a ClassCastException, both changing nothing; the cache keys grow, no model object is removed, and the target list stays null or non-null. |
| `UpdateMap.InsertAppendsOne` | src/main/java/org/j4fry/dojo/beans/StoreUpdateMap.java:163-177 | An insert adds at most one item, at the end, and only a non-null one. |
| `UpdateMap.ModelClassOverridesCallback` | src/main/java/org/j4fry/dojo/beans/StoreUpdateMap.java:166-174 | With modelClass given, the item inserted is the new instance, whatever onInsert returned. |
| `UpdateMap.InsertWithoutSource` | src/main/java/org/j4fry/dojo/beans/StoreUpdateMap.java:163-177 | With neither onInsert nor modelClass, an insert leaves the list alone, and fails on a null list. |
| `UpdateMap.ForbiddenSetChangesNothing` | src/main/java/org/j4fry/dojo/beans/StoreUpdateMap.java:190 | A set that autoUpdate forbids changes neither the model objects nor the list. |
| `UpdateMap.DeleteTwiceRemovesOnce` | src/main/java/org/j4fry/dojo/beans/StoreUpdateMap.java:204-215 | Deleting a key held by exactly one item of a flat list removes that item; repeating the delete removes nothing more. |
| `UpdateMap.StoreUpdateMap.constructor` | src/main/java/org/j4fry/dojo/beans/StoreUpdateMap.java:69-86 | A new map has no parameter filled. |
| `UpdateMap.StoreUpdateMap.Get` | src/main/java/org/j4fry/dojo/beans/StoreUpdateMap.java:91-133 | get on the bean's fields computes GetStep. |
| `UpdateMap.StoreUpdateMap.GetItemIn` | src/main/java/org/j4fry/dojo/beans/StoreUpdateMap.java:224-259 | The recursive getItem on the faces context computes FindList. |
| `UpdateMap.StoreUpdateMap.GetItem` | src/main/java/org/j4fry/dojo/beans/StoreUpdateMap.java:224-259 | getItem on the target list computes FindTop. |
| `UpdateMap.StoreUpdateMap.SetItemOf` | src/main/java/org/j4fry/dojo/beans/StoreUpdateMap.java:261-317 | setItem on the faces context computes SetItem. |
| `UpdateMap.StoreUpdateMap.SetAttrOf` | src/main/java/org/j4fry/dojo/beans/StoreUpdateMap.java:275-314 | One attribute computes SetAttr. |
| `UpdateMap.StoreUpdateMap.NewChildrenOf` | src/main/java/org/j4fry/dojo/beans/StoreUpdateMap.java:282-289 | The child list loop computes NewChildren. |
| `UpdateMap.StoreUpdateMap.NewChildOf` | src/main/java/org/j4fry/dojo/beans/StoreUpdateMap.java:286-288 | One element of the child list on the faces context computes NewChild. |
| `UpdateMap.StoreUpdateMap.CreatedOf` | src/main/java/org/j4fry/dojo/beans/StoreUpdateMap.java:170-174 | Computes Created. |
| `UpdateMap.StoreUpdateMap.InsertOf` | src/main/java/org/j4fry/dojo/beans/StoreUpdateMap.java:163-177 | The insert on the bean's list computes Insert. |
| `UpdateMap.StoreUpdateMap.UpdateOf` | src/main/java/org/j4fry/dojo/beans/StoreUpdateMap.java:185-199 | One set key computes Update. |
| `UpdateMap.StoreUpdateMap.UpdateItemOf` | src/main/java/org/j4fry/dojo/beans/StoreUpdateMap.java:192-198 | Setting an item of the bean's list computes UpdateItem. |
| `UpdateMap.StoreUpdateMap.SetLeafOf` | src/main/java/org/j4fry/dojo/beans/StoreUpdateMap.java:294-313 | One leaf attribute on the faces context computes SetLeaf. |
| `UpdateMap.StoreUpdateMap.SetEntriesOf` | src/main/java/org/j4fry/dojo/beans/StoreUpdateMap.java:180-201 | The loop over the keys of a set computes the set of the entry. |
| `UpdateMap.StoreUpdateMap.DeleteOf` | src/main/java/org/j4fry/dojo/beans/StoreUpdateMap.java:204-215 | Computes Delete. |
| `UpdateMap.StoreUpdateMap.EntriesOf` | src/main/java/org/j4fry/dojo/beans/StoreUpdateMap.java:159-216 | The loop over the updates array computes the entries in order. |
| `UpdateMap.StoreUpdateMap.Put` | src/main/java/org/j4fry/dojo/beans/StoreUpdateMap.java:138-222 | put on the bean, the faces context and the structure cache computes PutOutcome. |
| `UpdateMap.StoreUpdateMap.ApplyOf` | src/main/java/org/j4fry/dojo/beans/StoreUpdateMap.java:146-217 | The try block computes Apply. |
| `UpdateValidator.BuildFrom` | src/main/java/org/j4fry/dojo/validator/StoreUpdateValidator.java:157-199 | The validators built never outnumber the specs; a spec without an id gives no validator. |
| `UpdateValidator.OneValidatorPerSpec` | src/main/java/org/j4fry/dojo/validator/StoreUpdateValidator.java:157-168 | When every spec names a validator that is created and configured, there is one validator per spec, in order. |
| `UpdateValidator.DetermineValidators` | src/main/java/org/j4fry/dojo/validator/StoreUpdateValidator.java:148-203 | The cached list for the key, or the list built from its specs and cached; null when the key has no specs. |
| `UpdateValidator.DetermineValidatorsIsCached` | src/main/java/org/j4fry/dojo/validator/StoreUpdateValidator.java:151-156 | A key's validators are built once: asking again returns the same list and changes nothing. |
| `UpdateValidator.SpecLabel` | src/main/java/org/j4fry/dojo/validator/StoreUpdateValidator.java:130-131 | The spec's label when present and not null; a label that is not a String is a ClassCastException. |
| `UpdateValidator.RunFrom` | src/main/java/org/j4fry/dojo/validator/StoreUpdateValidator.java:124-143 | The validators of a leaf run in order; the first failure stops them. |
| `UpdateValidator.Leaf` | src/main/java/org/j4fry/dojo/validator/StoreUpdateValidator.java:120-145 | A leaf without a key or without specs is not validated. |
| `UpdateValidator.Walk` | src/main/java/org/j4fry/dojo/validator/StoreUpdateValidator.java:101-146 | The recursive validate descends into objects and arrays and validates other values only below depth two. |
| `UpdateValidator.Members` | src/main/java/org/j4fry/dojo/validator/StoreUpdateValidator.java:106-112 | Each member of an object is walked under its own name. |
| `UpdateValidator.Elements` | src/main/java/org/j4fry/dojo/validator/StoreUpdateValidator.java:113-119 | Each element of an array is walked under the array's key; a missing element is a JSONException. |
| `UpdateValidator.Targets` | src/main/java/org/j4fry/dojo/validator/StoreUpdateValidator.java:105-121 | The leaves of a value in walk order, with the keys they are validated under. |
| `UpdateValidator.MemberTargets` | src/main/java/org/j4fry/dojo/validator/StoreUpdateValidator.java:109-111 | The leaves of the members, in order. |
| `UpdateValidator.ElementTargets` | src/main/java/org/j4fry/dojo/validator/StoreUpdateValidator.java:116-118 | The leaves of the elements, in order. |
| `UpdateValidator.RunAll` | src/main/java/org/j4fry/dojo/validator/StoreUpdateValidator.java:121-143 | Validating a list of leaves in order; the first failure stops it. |
| `UpdateValidator.RunAllAppend` | src/main/java/org/j4fry/dojo/validator/StoreUpdateValidator.java:109-118 | Validating two lists of leaves is validating the first and then, on success, the second. |
| `UpdateValidator.WalkValidatesTargets` | src/main/java/org/j4fry/dojo/validator/StoreUpdateValidator.java:101-146 | The walk validates exactly the leaves at depth greater than two, array elements under their array's key and members under their name, in order. |
| `UpdateValidator.MembersValidateTargets` | src/main/java/org/j4fry/dojo/validator/StoreUpdateValidator.java:106-112 | The member loop validates exactly the leaves of its members. |
| `UpdateValidator.ElementsValidateTargets` | src/main/java/org/j4fry/dojo/validator/StoreUpdateValidator.java:113-119 | The element loop validates exactly the leaves of its elements. |
| `UpdateValidator.ShallowLeafIsSkipped` | src/main/java/org/j4fry/dojo/validator/StoreUpdateValidator.java:120 | A leaf on the first two levels is never validated. |
| `UpdateValidator.ArrayKeepsKey` | src/main/java/org/j4fry/dojo/validator/StoreUpdateValidator.java:113-119 | The scalars of a nested array are checked one by one, in order, each under the key of the array. |
| `UpdateValidator.SpecLabelDuringAndAfter` | src/main/java/org/j4fry/dojo/validator/StoreUpdateValidator.java:128-141 | A validator whose spec sets label l runs with l as the label; afterwards the label is removed if there was none before, and stays l (not restored) if there was one. |
| `UpdateValidator.PreviousLabelIsCleared` | src/main/java/org/j4fry/dojo/validator/StoreUpdateValidator.java:139-140 | After a validator whose spec sets no label, a previous label is overwritten with null. |
| `UpdateValidator.MissingIdShiftsSpecs` | src/main/java/org/j4fry/dojo/validator/StoreUpdateValidator.java:124-130 | A spec without an id gives no validator, so the next validator runs with the previous spec's label. |
| `UpdateValidator.FirstFailureWins` | src/main/java/org/j4fry/dojo/validator/StoreUpdateValidator.java:124-134 | The first validator to fail stops the others, and its exception is the result. |
| `UpdateValidator.AsValidatorException` | src/main/java/org/j4fry/dojo/validator/StoreUpdateValidator.java:77-83 | A ValidatorException is rethrown as it is; any other failure is wrapped in a ValidatorException with its message. |
| `UpdateValidator.ValidateOutcome` | src/main/java/org/j4fry/dojo/validator/StoreUpdateValidator.java:65-85 | A null value is valid and changes nothing; every failure inside the try block ends as a ValidatorException. |
| `UpdateValidator.NoSpecsNoChecks` | src/main/java/org/j4fry/dojo/validator/StoreUpdateValidator.java:121-123 | Without validator specs nothing is validated, and a walk that meets no missing element succeeds and changes nothing. |
| `UpdateValidator.ValidatorCache.constructor` | src/main/java/org/j4fry/dojo/validator/StoreUpdateValidator.java:71 | The validators map of a validate call starts empty. |
| `UpdateValidator.ValidatorCache.DetermineFor` | src/main/java/org/j4fry/dojo/validator/StoreUpdateValidator.java:148-203 | determineValidators on the cache computes DetermineValidators. |
| `UpdateValidator.BuildValidators` | src/main/java/org/j4fry/dojo/validator/StoreUpdateValidator.java:157-199 | The loop over a key's specs computes BuildFrom. |
| `UpdateValidator.Configure` | src/main/java/org/j4fry/dojo/validator/StoreUpdateValidator.java:169-197 | The loop over a spec's attributes skips `label` and `id` and sets the others. |
| `UpdateValidator.SetValidatorAttribute` | src/main/java/org/j4fry/dojo/validator/StoreUpdateValidator.java:172-196 | A validator property set by reflection: none of that name is skipped, no setter is a NullPointerException, a null value is a NullPointerException, and a writable one succeeds exactly when the coerced value is accepted by its setter. |
| `UpdateValidator.ConfigureFrom` | src/main/java/org/j4fry/dojo/validator/StoreUpdateValidator.java:169-197 | Configuring a validator fails only with an IllegalArgumentException or a NullPointerException. |
| `UpdateValidator.ConfigureFromSetsEach` | src/main/java/org/j4fry/dojo/validator/StoreUpdateValidator.java:169-197 | Configuring succeeds exactly when every attribute but label and id is set without an exception, and a failure is the exception of one of them. |
| `UpdateValidator.RunValidators` | src/main/java/org/j4fry/dojo/validator/StoreUpdateValidator.java:124-143 | The validator loop on the component computes RunFrom, label handling included. |
| `UpdateValidator.CheckLeaf` | src/main/java/org/j4fry/dojo/validator/StoreUpdateValidator.java:120-145 | Computes Leaf. |
| `UpdateValidator.WalkOf` | src/main/java/org/j4fry/dojo/validator/StoreUpdateValidator.java:101-146 | The recursive validate on the component and the cache computes Walk. |
| `UpdateValidator.MembersOf` | src/main/java/org/j4fry/dojo/validator/StoreUpdateValidator.java:106-112 | Computes Members. |
| `UpdateValidator.ElementsOf` | src/main/java/org/j4fry/dojo/validator/StoreUpdateValidator.java:113-119 | Computes Elements. |
| `UpdateValidator.Validate` | src/main/java/org/j4fry/dojo/validator/StoreUpdateValidator.java:65-85 | The public validate computes ValidateOutcome. |
| `BaseChecks.IntAttr` | src/main/java/org/j4fry/dojo/converter/BaseConverter.java:57-61 | An absent or null attribute gives the default, a String attribute gives Integer.parseInt of its text, and any other value is a ClassCastException. |
| `BaseChecks.MessageAttr` | src/main/java/org/j4fry/dojo/converter/BaseConverter.java:48-51 | A message attribute, or the built-in message when it is absent. |
| `BaseChecks.Required` | src/main/java/org/j4fry/dojo/converter/BaseConverter.java:43-44 | Required is true exactly when the attribute is a String equal to "true" ignoring case; it fails, with a ClassCastException, exactly when the attribute is neither null nor a String. |
| `BaseChecks.Check` | src/main/java/org/j4fry/dojo/converter/BaseConverter.java:40-85 | validate decides between three outcomes: a message to throw, a pass, or the exception a malformed attribute raises; a pass needs Required to be readable. The lemmas below state each branch, the pass included. |
| `BaseChecks.OptionalEmptyPasses` | src/main/java/org/j4fry/dojo/converter/BaseConverter.java:43-54 | An empty or missing value passes unless Required is "true", whatever its case. |
| `BaseChecks.RequiredEmptyFails` | src/main/java/org/j4fry/dojo/converter/BaseConverter.java:46-51 | For every attribute map with Required "true" in any case and no RegExp, MinLength or MaxLength, an empty value fails with the RequiredMessage attribute, or "input required" when it is absent; a RequiredMessage that is not a String is its ClassCastException. |
| `BaseChecks.RequiredMessageReported` | src/main/java/org/j4fry/dojo/converter/BaseConverter.java:48 | For every such map, a RequiredMessage attribute replaces "input required". |
| `BaseChecks.RequiredInAnyCase` | src/main/java/org/j4fry/dojo/converter/BaseConverter.java:44-51 | A Required attribute "TRUE" alone makes an empty value fail with "input required". |
| `BaseChecks.RegExpSkipsLengths` | src/main/java/org/j4fry/dojo/converter/BaseConverter.java:62-68 | With a RegExp, only the match decides; the length limits are not checked. |
| `BaseChecks.MinLengthFirst` | src/main/java/org/j4fry/dojo/converter/BaseConverter.java:69-74 | Without a RegExp, a value shorter than MinLength fails with the MinLengthMessage attribute (or the built-in min message, or the attribute's ClassCastException) even when it is also too long, and the report overwrites the required message. |
| `BaseChecks.MaxLengthSecond` | src/main/java/org/j4fry/dojo/converter/BaseConverter.java:75-79 | A value longer than MaxLength, and not shorter than MinLength, fails with the MaxLengthMessage attribute, the built-in max message, or the attribute's ClassCastException. |
| `BaseChecks.WithinLimitsPasses` | src/main/java/org/j4fry/dojo/converter/BaseConverter.java:69-84 | Without a RegExp, a non-empty value whose length lies within MinLength and MaxLength passes: no message and no exception. |
| `BaseChecks.UnconstrainedValuePasses` | src/main/java/org/j4fry/dojo/converter/BaseConverter.java:56-84 | With no RegExp, MinLength or MaxLength attribute, every non-empty value passes. |
| `BaseChecks.Unclosed` | src/main/java/org/j4fry/dojo/converter/BaseConverter.java:121 | `substring(begin, -1)` is always a StringIndexOutOfBoundsException. |
| `BaseChecks.FindPlaceholder` | src/main/java/org/j4fry/dojo/converter/BaseConverter.java:115 | indexOf("${", from): a `${` at the result, or -1. |
| `BaseChecks.FindPlaceholderAt` | src/main/java/org/j4fry/dojo/converter/BaseConverter.java:115 | indexOf finds the first `${` at or after `from`. |
| `BaseChecks.FindPlaceholderNone` | src/main/java/org/j4fry/dojo/converter/BaseConverter.java:130 | indexOf is -1 when no `${` starts at or after `from`. |
| `BaseChecks.FindBrace` | src/main/java/org/j4fry/dojo/converter/BaseConverter.java:120 | indexOf('}', from): a `}` at the result, or -1. |
| `BaseChecks.FindBraceAt` | src/main/java/org/j4fry/dojo/converter/BaseConverter.java:120 | indexOf finds the first `}` at or after `from`. |
| `BaseChecks.FindBraceNone` | src/main/java/org/j4fry/dojo/converter/BaseConverter.java:120 | indexOf is -1 when no `}` comes at or after `from`. |
| `BaseChecks.Expand` | src/main/java/org/j4fry/dojo/converter/BaseConverter.java:117-133 | The template loop: without a `${` left, the rest is kept as it is. |
| `BaseChecks.Templated` | src/main/java/org/j4fry/dojo/converter/BaseConverter.java:115-133 | Only a first `${` after the start switches templating on; otherwise the message is kept literally. |
| `BaseChecks.Template` | src/main/java/org/j4fry/dojo/converter/BaseConverter.java:112-133 | A null message becomes "no message provided". |
| `BaseChecks.ExpandUnfold` | src/main/java/org/j4fry/dojo/converter/BaseConverter.java:117-131 | One placeholder: the text before it, its parameter's text, then the rest. |
| `BaseChecks.NoMessageIsLiteral` | src/main/java/org/j4fry/dojo/converter/BaseConverter.java:112 | "no message provided" holds no placeholder, so it is thrown as it is. |
| `BaseChecks.Summarised` | src/main/java/org/j4fry/dojo/converter/BaseConverter.java:134-147 | A templated text becomes a ConverterException whose detail is the init parameter, or the text itself. |
| `BaseChecks.Thrown` | src/main/java/org/j4fry/dojo/converter/BaseConverter.java:111-148 | throwException ends in a ConverterException carrying the templated text, or in the exception templating raised. |
| `BaseChecks.FirstPlaceholderReplaced` | src/main/java/org/j4fry/dojo/converter/BaseConverter.java:116-131 | A first `${name}` after the start: the text before it is kept, the placeholder becomes the attribute's text, and templating goes on after the `}`. |
| `BaseChecks.LastPlaceholderReplaced` | src/main/java/org/j4fry/dojo/converter/BaseConverter.java:116-133 | The same, for a placeholder that ends the message. |
| `BaseChecks.PlaceholderReplaced` | src/main/java/org/j4fry/dojo/converter/BaseConverter.java:122-128 | `pre${p}` becomes `pre` and the attribute's text, or "attribute" + p + "NotProvided" when the attribute is absent. |
| `BaseChecks.LeadingPlaceholderIsLiteral` | src/main/java/org/j4fry/dojo/converter/BaseConverter.java:116 | A `${` at the very start switches templating off, so the placeholders stay as they are. |
| `BaseChecks.UnclosedPlaceholderFails` | src/main/java/org/j4fry/dojo/converter/BaseConverter.java:120-121 | A `${` that is never closed makes throwException fail with an index exception instead. |
| `BaseChecks.ExpandStep` | src/main/java/org/j4fry/dojo/converter/BaseConverter.java:117-131 | One turn of the loop: the text before a closed placeholder and its parameter's text move into the output. |
| `BaseChecks.ClosedPlaceholder` | src/main/java/org/j4fry/dojo/converter/BaseConverter.java:117-129 | A `${` closed by a `}`: the text after `from` becomes the text before the placeholder and its parameter's text, followed by templating from after the `}`. |
| `BaseChecks.ThrowException` | src/main/java/org/j4fry/dojo/converter/BaseConverter.java:111-148 | throwException on the component computes Thrown; it never returns normally. |
| `BaseChecks.Substitute` | src/main/java/org/j4fry/dojo/converter/BaseConverter.java:113-147 | throwException after the null check computes the templated message, and the exception it ends in. |
| `BaseChecks.ExpandLoop` | src/main/java/org/j4fry/dojo/converter/BaseConverter.java:117-133 | The `while (pos >= 0)` loop computes ExpandInto from the start with nothing built. |
| `BaseChecks.ExpandIntoIsPrefixed` | src/main/java/org/j4fry/dojo/converter/BaseConverter.java:117-133 | The loop from any position, with any text built so far, is that text in front of the recursive templating from that position. |
| `BaseChecks.ExpandIntoStep` | src/main/java/org/j4fry/dojo/converter/BaseConverter.java:117-131 | One turn of the loop: a closed placeholder moves the text before it and its parameter's text into the output. |
| `BaseChecks.ValidateOutcome` | src/main/java/org/j4fry/dojo/converter/BaseConverter.java:40-85 | validate throws exactly when Check gives a message or an exception. |
| `BaseChecks.Validate` | src/main/java/org/j4fry/dojo/converter/BaseConverter.java:40-85 | validate on the component computes ValidateOutcome. |
| `BaseChecks.GetAsObjectOutcome` | src/main/java/org/j4fry/dojo/converter/BaseConverter.java:90-99 | getAsObject is the conversion when validate and convert succeed; otherwise it is throwException of the failure's message. |
| `BaseChecks.FailureIsRethrown` | src/main/java/org/j4fry/dojo/converter/BaseConverter.java:92-97 | A failure of validate or convert only ever comes out through throwException. |
| `BaseChecks.ValidationMessageTemplatedTwice` | src/main/java/org/j4fry/dojo/converter/BaseConverter.java:92-97 | A validation message is templated twice: when attribute p of `pre${p}` holds `pre2${q}`, getAsObject reports `pre pre2` followed by the text for a missing q. |
| `BaseChecks.ValidationFailureRethrown` | src/main/java/org/j4fry/dojo/converter/BaseConverter.java:93-96 | A validation message that templates to s reaches throwException again as s. |
| `BaseChecks.GetAsObject` | src/main/java/org/j4fry/dojo/converter/BaseConverter.java:90-99 | getAsObject on the component computes GetAsObjectOutcome. |
| `GridEvents.GridGet` | src/main/java/org/j4fry/dojo/beans/GridEventMap.java:46-58 | get sets the key expression and then the value expression, each returning this; later calls return null and change nothing; a non-String argument is a ClassCastException and changes nothing. |
| `GridEvents.TwoExpressions` | src/main/java/org/j4fry/dojo/beans/GridEventMap.java:46-58 | A fresh map given two expressions holds both, and then answers null without changing. |
| `GridEvents.FindRow` | src/main/java/org/j4fry/dojo/beans/GridEventMap.java:94-102 | A row found matches: its key value exists and its text is the selected key. |
| `GridEvents.FindRowIsFirst` | src/main/java/org/j4fry/dojo/beans/GridEventMap.java:94-102 | The row found is the first that matches, and none is found exactly when no element matches. |
| `GridEvents.KeyBinding` | src/main/java/org/j4fry/dojo/beans/GridEventMap.java:92 | The key column's binding exists exactly when the store's `key` attribute is a String that names a leaf binding. |
| `GridEvents.SetSelected` | src/main/java/org/j4fry/dojo/beans/GridEventMap.java:88-108 | The value part writes only the value expression, and nothing on an error; messages and the cache are untouched. |
| `GridEvents.ReadStructure` | src/main/java/org/j4fry/dojo/beans/GridEventMap.java:75-81 | A missing store is a NullPointerException with a null message; a non-String structure is a ClassCastException; otherwise the descriptor is tokenized. |
| `GridEvents.GridPut` | src/main/java/org/j4fry/dojo/beans/GridEventMap.java:63-111 | put does nothing unless keyValue is a non-empty String; it adds at most one message, and after a message neither expression is written. |
| `GridEvents.Update` | src/main/java/org/j4fry/dojo/beans/GridEventMap.java:83-108 | The part after the structure: the key part, then the value part; messages and cache untouched. |
| `GridEvents.KeyIsWrittenFirst` | src/main/java/org/j4fry/dojo/beans/GridEventMap.java:83-86 | When the structure is read, the selected key reaches a non-empty key expression whatever happens to the value part, unless both are the same expression. |
| `GridEvents.BracesDiffer` | src/main/java/org/j4fry/dojo/beans/GridEventMap.java:84 | Different expression texts give different `#{...}` expressions. |
| `GridEvents.PutUpdatesAfterStructure` | src/main/java/org/j4fry/dojo/beans/GridEventMap.java:64-86 | put reaches the update exactly when the key is a non-empty String and the structure is read. |
| `GridEvents.BadStructureIsReported` | src/main/java/org/j4fry/dojo/beans/GridEventMap.java:75-81 | An exception in the try block is reported as one message with its text, and no expression is written. |
| `GridEvents.FirstMatchIsSelected` | src/main/java/org/j4fry/dojo/beans/GridEventMap.java:94-106 | The first matching element is written to the value expression, and the item binding is cleared. |
| `GridEvents.NoMatchThrows` | src/main/java/org/j4fry/dojo/beans/GridEventMap.java:89-105 | For any List without a matching element, the empty List included, put throws IllegalArgumentException "Cannot set value ..."; the item stays bound to the last element, or is left as it was when the List is empty. |
| `GridEvents.GridEventMap.constructor` | src/main/java/org/j4fry/dojo/beans/GridEventMap.java:38-41 | A new map holds neither expression. |
| `GridEvents.GridEventMap.Get` | src/main/java/org/j4fry/dojo/beans/GridEventMap.java:46-58 | get on the bean's fields computes GridGet. |
| `GridEvents.GridEventMap.Put` | src/main/java/org/j4fry/dojo/beans/GridEventMap.java:63-111 | put on the bean, the faces context and the structure cache computes GridPut. |
| `GridEvents.GridEventMap.TryStructure` | src/main/java/org/j4fry/dojo/beans/GridEventMap.java:75-81 | The try block computes ReadStructure. |
| `GridEvents.GridEventMap.Apply` | src/main/java/org/j4fry/dojo/beans/GridEventMap.java:83-108 | Computes Update. |
| `GridEvents.GridEventMap.Select` | src/main/java/org/j4fry/dojo/beans/GridEventMap.java:88-108 | Computes SetSelected. |
| `GridEvents.GridEventMap.Search` | src/main/java/org/j4fry/dojo/beans/GridEventMap.java:93-102 | The loop with its `valueSet` flag and break stops at the first matching element and writes it. |
| `ListMaps.Entries` | src/main/java/org/j4fry/dojo/beans/ListToMapMap.java:62-66 | One entry per element, in the list's order: the key text ("" for null) and the value text (null for null). |
| `ListMaps.Fill` | src/main/java/org/j4fry/dojo/beans/ListToMapMap.java:61-67 | The LinkedHashMap filled by the puts is a valid ordered map with no more keys than entries. |
| `ListMaps.ListMapGet` | src/main/java/org/j4fry/dojo/beans/ListToMapMap.java:41-70 | A null first argument does not advance; a List becomes the list; a cast failure changes nothing; once configured, a call builds the map and changes no state. |
| `ListMaps.FillOneMore` | src/main/java/org/j4fry/dojo/beans/ListToMapMap.java:66 | Filling one more entry is one more put. |
| `ListMaps.EveryKeyIsFilled` | src/main/java/org/j4fry/dojo/beans/ListToMapMap.java:62-67 | Every entry's key is in the map. |
| `ListMaps.EveryFilledKeyFromAnEntry` | src/main/java/org/j4fry/dojo/beans/ListToMapMap.java:62-67 | Every key of the map is the key of some entry. |
| `ListMaps.LastPutWins` | src/main/java/org/j4fry/dojo/beans/ListToMapMap.java:66 | An entry whose key no later entry repeats has its value in the map: the last put wins. |
| `ListMaps.KeysInFirstPutOrder` | src/main/java/org/j4fry/dojo/beans/ListToMapMap.java:61-67 | Keys stay in the order of their first put: a duplicate key keeps its first position. |
| `ListMaps.FourParameters` | src/main/java/org/j4fry/dojo/beans/ListToMapMap.java:41-69 | A fresh bean given the list, the variable, the key and the value expression returns the filled map of the entries. |
| `ListMaps.ListToMapMap.constructor` | src/main/java/org/j4fry/dojo/beans/ListToMapMap.java:36-38 | A new map has no parameter. |
| `ListMaps.ListToMapMap.Get` | src/main/java/org/j4fry/dojo/beans/ListToMapMap.java:41-70 | get on the bean's fields and the item binding computes ListMapGet. |
| `ListMaps.ListToMapMap.Collect` | src/main/java/org/j4fry/dojo/beans/ListToMapMap.java:61-68 | The loop gives the map filled from the entries, and leaves the last element bound. |
| `ComboStores.NameObjects` | src/main/java/org/j4fry/dojo/beans/ComboBoxStoreMap.java:71-73 | One object per element whose only key is "name", holding the key expression's value for that element. |
| `ComboStores.ComboGet` | src/main/java/org/j4fry/dojo/beans/ComboBoxStoreMap.java:42-79 | The first call advances even for a non-List argument; the second sets the variable flag even when its cast fails; later calls return the store text with "dojofaces_key_undefined" naming the item itself. |
| `ComboStores.JoinJsonSnoc` | src/main/java/org/j4fry/dojo/beans/ComboBoxStoreMap.java:66-70 | Appending an element to the joined list adds a comma only after the first. |
| `ComboStores.KeyUndefinedNamesTheItems` | src/main/java/org/j4fry/dojo/beans/ComboBoxStoreMap.java:57-58 | With the key "dojofaces_key_undefined", each entry's name is the element itself. |
| `ComboStores.NoListIsEmptyStore` | src/main/java/org/j4fry/dojo/beans/ComboBoxStoreMap.java:43-77 | A first argument that is not a List leaves no list, and the store is then "[]". |
| `ComboStores.EntryAppended` | src/main/java/org/j4fry/dojo/beans/ComboBoxStoreMap.java:66-73 | The text after one more entry is the joined list of one more element. |
| `ComboStores.ComboBoxStoreMap.constructor` | src/main/java/org/j4fry/dojo/beans/ComboBoxStoreMap.java:36-40 | A new map has no parameter and no flag set. |
| `ComboStores.ComboBoxStoreMap.Get` | src/main/java/org/j4fry/dojo/beans/ComboBoxStoreMap.java:42-79 | get on the bean's fields and the item binding computes ComboGet. |
| `ComboStores.ComboBoxStoreMap.Entries` | src/main/java/org/j4fry/dojo/beans/ComboBoxStoreMap.java:60-75 | The loop with its `start` flag builds "[" followed by the comma-joined entries, one per element; with "]" appended it is the JSON array of the entries. |
| `Exec.ExecGet` | src/main/java/org/j4fry/dojo/beans/ExecMap.java:44-55 | A null key or "dojoFacesNullAction" changes nothing; `#{...}` sets the binding and nothing else; any other String sets the fixed response and nothing else; a non-String is a ClassCastException. |
| `Exec.BindingStays` | src/main/java/org/j4fry/dojo/beans/ExecMap.java:46-53 | Keys that are null or not method expressions never fail and leave the binding as it is. |
| `Exec.LastMethodIsTriggered` | src/main/java/org/j4fry/dojo/beans/ExecMap.java:24-55 | After a `get` of "#{ex}" with no later method expression, the binding is ex and trigger returns the String that invoking ex gives (or its exception). |
| `Exec.TriggerOutcome` | src/main/java/org/j4fry/dojo/beans/ExecMap.java:35-42 | Without a binding, trigger returns the fixed response. |
| `Exec.BindingIsKept` | src/main/java/org/j4fry/dojo/beans/ExecMap.java:46-53 | Once a binding exists no later call removes it. |
| `Exec.FixedResponseIsShadowed` | src/main/java/org/j4fry/dojo/beans/ExecMap.java:35-42 | Fixed responses given after a binding never reach trigger. |
| `Exec.LastResponseWins` | src/main/java/org/j4fry/dojo/beans/ExecMap.java:46-52 | Without any method expression among the keys, trigger answers the last String given. |
| `Exec.Unchanged` | src/main/java/org/j4fry/dojo/beans/ExecMap.java:46 | Null keys and the placeholder leave the state as it is. |
| `Exec.ExecMap.constructor` | src/main/java/org/j4fry/dojo/beans/ExecMap.java:32-33 | A new map has no binding and a null fixed response. |
| `Exec.ExecMap.Trigger` | src/main/java/org/j4fry/dojo/beans/ExecMap.java:35-42 | trigger on the bean's fields computes TriggerOutcome. |
| `Exec.ExecMap.Get` | src/main/java/org/j4fry/dojo/beans/ExecMap.java:44-55 | get on the bean's fields computes ExecGet; a failed cast changes nothing. |
| `Concat.ConcatGet` | src/main/java/org/j4fry/dojo/beans/ConcatMap.java:10-18 | The first call stores the key's text ("" for null) and returns this; later calls change nothing and return a text that begins with the stored one. |
| `Concat.ConcatFeed` | src/main/java/org/j4fry/dojo/beans/ConcatMap.java:10-18 | Successive calls give one reply each. |
| `Concat.FirstNeverChanges` | src/main/java/org/j4fry/dojo/beans/ConcatMap.java:11-17 | Once stored, the first part never changes, and every later call answers it followed by String.valueOf of its key. |
| `Concat.TwoCalls` | src/main/java/org/j4fry/dojo/beans/ConcatMap.java:10-17 | A fresh map returns itself on the first call and the concatenation on the second. |
| `Concat.ConcatMap.constructor` | src/main/java/org/j4fry/dojo/beans/ConcatMap.java:7-8 | A new map has no first part. |
| `Concat.ConcatMap.Get` | src/main/java/org/j4fry/dojo/beans/ConcatMap.java:10-18 | get on the bean's fields computes ConcatGet. |
| `FormIds.Chain` | src/main/java/org/j4fry/dojo/beans/FormIdMap.java:40-42 | The parent chain starts with the component itself. |
| `FormIds.NearestForm` | src/main/java/org/j4fry/dojo/beans/FormIdMap.java:40-42 | The result is null or a form, and a form is its own nearest form. |
| `FormIds.NearestFormIsFirstInChain` | src/main/java/org/j4fry/dojo/beans/FormIdMap.java:40-43 | The nearest form is null when the chain holds no form, and otherwise an element of the chain with no form before it. |
| `FormIds.FormIdOf` | src/main/java/org/j4fry/dojo/beans/FormIdMap.java:37-46 | null exactly for an unbound id; a bound id gives the client id of its nearest enclosing form; the RuntimeException "tag must be nested inside a form" is raised exactly when a bound component has no form above it. |
| `FormIds.FormReportsItself` | src/main/java/org/j4fry/dojo/beans/FormIdMap.java:39-45 | A bound form reports its own client id. |
| `FormIds.ChildOfFormReportsForm` | src/main/java/org/j4fry/dojo/beans/FormIdMap.java:39-45 | A component directly inside a form reports the form's id. |
| `FormIds.FormIdMap.constructor` | src/main/java/org/j4fry/dojo/beans/FormIdMap.java:33-35 | The map keeps the bindings it is given. |
| `FormIds.FormIdMap.Get` | src/main/java/org/j4fry/dojo/beans/FormIdMap.java:37-46 | The `while` walk up the parent chain computes FormIdOf and leaves the bindings unchanged. |
| `JsIds.ReplaceChar` | src/main/java/org/j4fry/dojo/beans/JsIdMap.java:19 | String.replace of one character: the same length, and each character replaced only where it equals the one replaced. |
| `JsIds.JsId` | src/main/java/org/j4fry/dojo/beans/JsIdMap.java:16-20 | null exactly for an unbound id; otherwise a text of the client id's length. |
| `JsIds.JsIdHasNoColon` | src/main/java/org/j4fry/dojo/beans/JsIdMap.java:19 | The JavaScript id holds no `:`; each `:` of the client id became `_`, and every other character is unchanged. |
| `JsIds.ReplaceIsIdempotent` | src/main/java/org/j4fry/dojo/beans/JsIdMap.java:19 | Replacing the colons a second time changes nothing. |

## Left out

- The base org.json classes (JSONTokener, JSONArray, JSONObject) are not part of this model. `Cursor` follows the classic tokener: `next` past the end gives NUL and still advances, and `nextClean` skips only characters up to U+0020 (no comments). The array reader follows the classic JSONArray: the closing bracket must match the opening one, and `[,]` gives a null element. The descriptor parser `new JSONObject(String)` is a service of `Env`.
- Map iteration order: every HashMap the engine iterates (valueBindingStrings, childrenStrings, the converter and validator parameters) is iterated in insertion order. Java's HashMap order is unspecified.
- EL resolution is a field map on each model object (`Faces.Read`/`Faces.Write`). `isReadOnly`, `getType`, method expressions, `createConverter`, `createValidator`, bean introspection, reflective setters, `Pattern.matches`, `Class.forName`, `newInstance` and `isAssignableFrom` for classes other than Object, String, Boolean and the numeric ones are total functions in `Env`. An EL target written by GridEventMap and ExecMap's method bindings are values in the faces context. An expression target is assumed distinct from the item variable.
- Converters and validators are numbered instances; how their property setters change later conversions is not modelled.
- The value bound to the store's item variable is one shared binding. It is rebound for every item, also inside child collections, and never restored; this is modelled as the code does it. Aliasing between a child list and the object holding it is approximated: the list is bound again after each element is added.
- Insert, UpdateItem, Delete: the target list of StoreUpdateMap is held as a value, copied when the first `get` receives it. Java's `list.add`, `list.set` and `list.remove` change the caller's List in place, so the bean property it came from sees every change; in the model no model object sees them, and the synchronised list is only the map's own `list` field.
- The EL coercion of `getValue` to the expected String type (null becoming "") is not modelled: a value is read as it is stored.
- `createValueExpression` or `createValueBinding` with a null expression is modelled as a NullPointerException.
- A component attribute `put("label", null)` stores null. A real JSF attribute map would throw.
- StackOverflowError: deep recursion into child collections through cyclic model objects is bounded by a `stack` depth on the faces context (`fuel` parameters). Exhausting it is the overflow; a real JVM's stack depth is not modelled.
- The nine `set*` flags of StoreUpdateMap are modelled as a count of filled parameters, since they are always set in a fixed order.
- `MethodInvokator` is modelled only by the `#{...}` text it builds and the result the method expression gives.
- `UpdateValidator.SpecLabelDuringAndAfter`: line 140 puts the spec's label back, not the previous label. The model does what the code does, so a previous label is not restored.
- The floating-point branches of `coerceTo` (double, float) and its String parse through NumberFormat are oracles in `Env`.
- Bean introspection failure (`IntrospectionException`) and the class names inside the IllegalArgumentException texts of the reflective setters are not modelled; the exceptions keep their kind.
- Exception messages are approximated: the model keeps each exception's kind, and its text only where the code writes it. The JVM's own texts are not modelled: a ClassCastException's text naming the classes, a NullPointerException's null or helpful message (the model writes short texts such as "expression is null"), and the " at character N of ..." suffix of the tokener's syntax errors. These texts reach the user through the FacesMessage of StoreUpdateMap.put and GridEventMap.put and the ConverterException of getAsString.
- The `onError` method expression of BaseConverter.throwException is not invoked in the model, and the FacesMessage detail is modelled by the `J4Fry_ACTION_DETAIL_MESSAGE` init parameter. `Pattern.matches` with a null input is modelled as a NullPointerException.
- Strings are sequences of Unicode code points, while Java's `length()` counts UTF-16 code units: a character outside the Basic Multilingual Plane has length 1 in the model and 2 in Java, so the MinLength and MaxLength checks of BaseConverter differ for such values.
- CharOfCode: a `\u` escape of a surrogate becomes U+FFFD, so an escaped surrogate pair reads as two U+FFFD characters, not as the character it encodes.
- EqualsIgnoreCase: case folding covers ASCII letters only; no Unicode normalisation is modelled.
- DigitValue: only ASCII digits and letters are digits; `Integer.parseInt` also accepts other Unicode decimal digits (such as Arabic-Indic digits).
- RefText: the `toString()` of a model object is fixed as `Bean@` followed by its number. It decides getItem's key comparison for items whose key is a model object, ConcatMap's text and the JSON quoting of such values.
- `Value` has no Double, Float or BigDecimal case: model properties and JSON numbers are integral (JSON reals are not read), and `Env.toFloating` stands for the result of `doubleValue`/`floatValue`, whatever value it is.
- ParseInteger: its own contract gives the range, the sign and the error kind; the parsed value is stated by lemmas for the decimal text of any integer, for a leading plus sign, and by examples for hexadecimal text, not for every digit string (leading zeros, for one).
- StringFrom: its own contract gives only the position and the error kinds; the characters read are stated by its lemmas for plain text, for escapes and for the output of quote.
- Apply: its contract states the error paths, the cache growth, that no model object is removed and that the target list stays null or non-null; reading the descriptor with the empty-key placeholder replaced and applying the entries in order is its definition.
- FindIsFirstInPreorder: first-match against a pre-order walk is proved for one child binding and for keys other than that of a null item; with several child bindings the search reads each later child collection from the item the previous search left bound (SecondChildReadFromLastVisited), which no tree walk describes.
- `java.util.Date.toString` calendar formatting is not modelled; a Date's text is its time stamp.
- GridEventMap: the store component is found by grid id through DojoHelper client ids and `findComponent`. DojoHelper is not part of this model: the store's attributes are a parameter of `put`.
- The children ValueExpression cache of StoreConverter always equals childrenStrings, so it is not a separate field.
- ComboBoxStoreMap: `new JSONObject(Map)` with a null value is written as `{"name":null}`. Some versions of the library drop the key instead.
- NumberConverter, StoreUpdateConverter, DojoHelper, MapAdapter and SetContentTypeListener are not part of this model: they are locale formatting, glue and servlet output.
- The thread safety of the static structure cache is not modelled.
