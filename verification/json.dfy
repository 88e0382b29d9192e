/** JSON values and the two library calls the pipeline puts them through:
    `JSON.stringify` on the producer side and `JSON.parse` on the consumer
    side (RFC 8259; ECMA-262, sections 25.5.1 and 25.5.2).

    A Value is what a JavaScript program can hand to `JSON.stringify`: the
    JSON kinds plus BigInt, which `JSON.stringify` refuses with a TypeError.
    Object members keep their insertion order; a key may repeat, in which
    case a property read sees the last one, as `JSON.parse` leaves it.

    Floating-point numbers are opaque to the pipeline: a Float is the JSON
    number text that stands for it.
 */
module Json {

  import Wrappers
  import Js

  // ---------------------------------------------------------------------
  // Number text (RFC 8259, section 6)
  // ---------------------------------------------------------------------

  /** The length of the longest prefix of `s` made of decimal digits. */
  function DigitRun(s: string): (n: nat)
    ensures n <= |s|
    ensures forall i :: 0 <= i < n ==> Js.IsDecimalDigit(s[i])
    ensures n < |s| ==> !Js.IsDecimalDigit(s[n])
  {
    if |s| > 0 && Js.IsDecimalDigit(s[0]) then 1 + DigitRun(s[1..]) else 0
  }

  /** The decimal digit run is the radix-10 run `parseInt` scans. */
  lemma {:induction false} DigitRunIsRadixRun(s: string)
    ensures DigitRun(s) == Js.RadixRun(s, 10)
  {
    if |s| > 0 && Js.IsDecimalDigit(s[0]) {
      DigitRunIsRadixRun(s[1..]);
    }
  }

  /** `-`? int frac? exp?, where int has no leading zero. */
  predicate ValidNumber(s: string) {
    var a := if |s| > 0 && s[0] == '-' then s[1..] else s;
    var n := DigitRun(a);
    n > 0 && (a[0] != '0' || n == 1) && ValidFraction(a[n..])
  }

  /** (`.` digit+)? exp? */
  predicate ValidFraction(s: string) {
    if |s| > 0 && s[0] == '.' then
      var n := DigitRun(s[1..]);
      n > 0 && ValidExponent(s[1 + n..])
    else
      ValidExponent(s)
  }

  /** ((`e` | `E`) (`+` | `-`)? digit+)? */
  predicate ValidExponent(s: string) {
    || |s| == 0
    || ((s[0] == 'e' || s[0] == 'E') &&
        var b := if |s| > 1 && (s[1] == '+' || s[1] == '-') then 2 else 1;
        b < |s| && DigitRun(s[b..]) == |s| - b)
  }

  /** The characters a number token can contain. */
  predicate IsNumberChar(c: char) {
    Js.IsDecimalDigit(c) || c == '-' || c == '+' || c == '.' || c == 'e' || c == 'E'
  }

  /** An opaque floating-point value, carried as its JSON number text. */
  type Float = s: string | ValidNumber(s) witness "0"

  // ---------------------------------------------------------------------
  // Values
  // ---------------------------------------------------------------------

  datatype Value =
    | Null
    | Bool(b: bool)
    | Num(n: Float)
    | Str(s: string)
    | BigInt(i: int)
    | Arr(items: seq<Value>)
    | Obj(members: seq<Member>)

  datatype Member = Member(key: string, value: Value)

  /** True when no BigInt occurs anywhere in `v`. */
  predicate NoBigInt(v: Value)
    decreases v
  {
    match v
    case BigInt(_) => false
    case Arr(items) => forall i :: 0 <= i < |items| ==> NoBigInt(items[i])
    case Obj(ms) => forall i :: 0 <= i < |ms| ==> NoBigInt(ms[i].value)
    case _ => true
  }

  /** The members of an object literal with the given keys and values, in
      order. */
  function Zip(keys: seq<string>, values: seq<Value>): (ms: seq<Member>)
    requires |keys| == |values|
    ensures |ms| == |keys|
    ensures forall i :: 0 <= i < |ms| ==> ms[i] == Member(keys[i], values[i])
  {
    seq(|keys|, i requires 0 <= i < |keys| => Member(keys[i], values[i]))
  }

  /** The own property `key` of an object: the last member with that key. */
  function Lookup(ms: seq<Member>, key: string): (r: Wrappers.Option<Value>)
    ensures r.None? <==> forall i :: 0 <= i < |ms| ==> ms[i].key != key
    ensures r.Some? ==> Member(key, r.value) in ms
  {
    if |ms| == 0 then Wrappers.None
    else if ms[|ms| - 1].key == key then Wrappers.Some(ms[|ms| - 1].value)
    else Lookup(ms[..|ms| - 1], key)
  }

  /** A later member with the same key hides an earlier one. */
  lemma LookupLastWins(ms: seq<Member>, key: string, value: Value)
    ensures Lookup(ms + [Member(key, value)], key) == Wrappers.Some(value)
  {
  }

  /** In an object literal, a key that is not repeated later looks up the
      value written with it. */
  lemma {:induction false} LookupZip(keys: seq<string>, values: seq<Value>, j: nat)
    requires |keys| == |values| && j < |keys|
    requires forall k :: j < k < |keys| ==> keys[k] != keys[j]
    ensures Lookup(Zip(keys, values), keys[j]) == Wrappers.Some(values[j])
    decreases |keys|
  {
    var ms := Zip(keys, values);
    var n := |keys| - 1;
    if j < n {
      assert ms[..n] == Zip(keys[..n], values[..n]);
      LookupZip(keys[..n], values[..n], j);
    }
  }

  /** A member with another key does not change a lookup. */
  lemma LookupOtherKey(ms: seq<Member>, m: Member, key: string)
    requires m.key != key
    ensures Lookup(ms + [m], key) == Lookup(ms, key)
  {
    assert (ms + [m])[..|ms|] == ms;
  }

  /** `v.key` for a value `v` that is not `undefined`: a TypeError on
      `null`, the own property on an object, and `undefined` (None) on any
      other kind, none of which has own properties with the keys the
      pipeline reads. */
  function Property(v: Value, key: string): (r: Js.Result<Wrappers.Option<Value>>)
    ensures r.Failure? <==> v.Null?
    ensures r.Success? && r.value.Some? ==> v.Obj?
    ensures v.Obj? ==> r == Wrappers.Success(Lookup(v.members, key))
  {
    match v
    case Null => Wrappers.Failure(Js.TypeError)
    case Obj(ms) => Wrappers.Success(Lookup(ms, key))
    case _ => Wrappers.Success(Wrappers.None)
  }

  // ---------------------------------------------------------------------
  // ToString (ECMA-262, section 7.1.17), as `parseInt` applies it
  // ---------------------------------------------------------------------

  /** Whether JavaScript's ToString throws on `v`.  A parsed value holds no
      functions, so an object with an own `toString` property has neither a
      callable `toString` nor a `valueOf` that yields a primitive (the
      inherited one returns the object itself): ToString throws a
      TypeError.  Any other object reads as "[object Object]".  An array is
      joined, which converts every element that is not `null`. */
  predicate ToStringThrows(v: Value)
    decreases v
  {
    match v
    case Obj(ms) => exists i :: 0 <= i < |ms| && ms[i].key == "toString"
    case Arr(items) => exists i :: 0 <= i < |items| && ToStringThrows(items[i])
    case _ => false
  }

  /** JavaScript's ToString of a property value as `parseInt` applies it;
      None is `undefined`. */
  function ToJsString(v: Wrappers.Option<Value>): (r: Js.Result<string>)
    ensures v.None? ==> r == Wrappers.Success("undefined")
    ensures v.Some? ==> r == ValueToString(v.value)
  {
    match v
    case None => Wrappers.Success("undefined")
    case Some(x) => ValueToString(x)
  }

  /** ToString of a value: it throws a TypeError exactly when it reaches an
      object with its own `toString`; strings and BigInts give their own
      text, and arrays join their elements with `,`, writing `null`
      elements as the empty string. */
  function ValueToString(v: Value): (r: Js.Result<string>)
    ensures r.Failure? <==> ToStringThrows(v)
    ensures r.Failure? ==> r.error == Js.TypeError
    ensures v.Str? ==> r == Wrappers.Success(v.s)
    ensures v.BigInt? ==> r == Wrappers.Success(Js.DecimalString(v.i))
    ensures v.Obj? && r.Success? ==> r.value == "[object Object]"
    decreases v, 1
  {
    match v
    case Null => Wrappers.Success("null")
    case Bool(b) => Wrappers.Success(if b then "true" else "false")
    case Num(n) => Wrappers.Success(n)
    case Str(s) => Wrappers.Success(s)
    case BigInt(i) => Wrappers.Success(Js.DecimalString(i))
    case Arr(items) => JoinItems(items)
    case Obj(ms) =>
      if Lookup(ms, "toString").Some? then Wrappers.Failure(Js.TypeError)
      else Wrappers.Success("[object Object]")
  }

  /** `Array.prototype.join(",")`: the first element whose ToString throws
      decides the exception. */
  function JoinItems(items: seq<Value>): (r: Js.Result<string>)
    ensures r.Failure? <==> exists i :: 0 <= i < |items| && ToStringThrows(items[i])
    ensures r.Failure? ==> r.error == Js.TypeError
    decreases items, 0
  {
    if |items| == 0 then Wrappers.Success("")
    else
      var first :- if items[0].Null? then Wrappers.Success("") else ValueToString(items[0]);
      if |items| == 1 then Wrappers.Success(first)
      else
        var others :- JoinItems(items[1..]);
        Wrappers.Success(first + "," + others)
  }

  // ---------------------------------------------------------------------
  // JSON.stringify (no indentation, no replacer)
  // ---------------------------------------------------------------------

  function HexDigit(d: nat): char
    requires d < 16
  {
    "0123456789abcdef"[d]
  }

  /** QuoteJSONString's escape for one character (ECMA-262, section
      25.5.2.3): the seven short escapes, `\u00xx` with lower-case hex for the
      other control characters, the character itself otherwise. */
  function EscapeChar(c: char): string
  {
    if c == '\U{0008}' then "\\b"
    else if c == '\t' then "\\t"
    else if c == '\n' then "\\n"
    else if c == '\U{000C}' then "\\f"
    else if c == '\r' then "\\r"
    else if c == '"' then "\\\""
    else if c == '\\' then "\\\\"
    else if c < ' ' then "\\u00" + [HexDigit(c as nat / 16), HexDigit(c as nat % 16)]
    else [c]
  }

  function Escape(s: string): string
  {
    if |s| == 0 then "" else EscapeChar(s[0]) + Escape(s[1..])
  }

  function Quote(s: string): string
  {
    "\"" + Escape(s) + "\""
  }

  function Print(v: Value): (text: string)
    requires NoBigInt(v)
    ensures |text| > 0
    decreases v, 1
  {
    match v
    case Null => "null"
    case Bool(b) => if b then "true" else "false"
    case Num(n) => n
    case Str(s) => Quote(s)
    case Arr(items) => "[" + PrintItems(items) + "]"
    case Obj(ms) => "{" + PrintMembers(ms) + "}"
  }

  function PrintItems(items: seq<Value>): string
    requires forall i :: 0 <= i < |items| ==> NoBigInt(items[i])
    decreases items, 0
  {
    if |items| == 0 then ""
    else if |items| == 1 then Print(items[0])
    else Print(items[0]) + "," + PrintItems(items[1..])
  }

  function PrintMember(m: Member): string
    requires NoBigInt(m.value)
    decreases m, 0
  {
    Quote(m.key) + ":" + Print(m.value)
  }

  function PrintMembers(ms: seq<Member>): string
    requires forall i :: 0 <= i < |ms| ==> NoBigInt(ms[i].value)
    decreases ms, 1
  {
    if |ms| == 0 then ""
    else if |ms| == 1 then PrintMember(ms[0])
    else PrintMember(ms[0]) + "," + PrintMembers(ms[1..])
  }

  /** `JSON.stringify(v)`: a TypeError as soon as a BigInt is met, the
      compact JSON text of `v` otherwise, which `JSON.parse` reads back as
      `v`. */
  function Stringify(v: Value): (r: Js.Result<string>)
    ensures r.Success? <==> NoBigInt(v)
    ensures r.Failure? ==> r.error == Js.TypeError
    ensures r.Success? ==> Parse(r.value) == Wrappers.Success(v)
  {
    if NoBigInt(v) then
      ParseValuePrint(v, "");
      assert Print(v) + "" == Print(v);
      Wrappers.Success(Print(v))
    else
      Wrappers.Failure(Js.TypeError)
  }

  // ---------------------------------------------------------------------
  // JSON.parse
  // ---------------------------------------------------------------------

  predicate IsJsonWhiteSpace(c: char) {
    c == ' ' || c == '\t' || c == '\n' || c == '\r'
  }

  function SkipWhiteSpace(s: string): (r: string)
    ensures |r| <= |s|
    ensures |r| > 0 ==> !IsJsonWhiteSpace(r[0])
    ensures |s| > 0 && !IsJsonWhiteSpace(s[0]) ==> r == s
  {
    if |s| > 0 && IsJsonWhiteSpace(s[0]) then SkipWhiteSpace(s[1..]) else s
  }

  /** The length of the longest prefix of `s` made of number characters. */
  function NumberRun(s: string): (n: nat)
    ensures n <= |s|
    ensures |s| > 0 && IsNumberChar(s[0]) ==> n > 0
  {
    if |s| > 0 && IsNumberChar(s[0]) then 1 + NumberRun(s[1..]) else 0
  }

  predicate IsHexDigit(c: char) {
    Js.DigitValue(c) < 16
  }

  /** The code unit of a `\uXXXX` escape whose four hex digits start `s`. */
  function HexEscapeValue(s: string): (r: Wrappers.Option<nat>)
    ensures r.Some? ==> r.value < 0x1_0000
  {
    if |s| >= 4 && IsHexDigit(s[0]) && IsHexDigit(s[1]) && IsHexDigit(s[2]) && IsHexDigit(s[3]) then
      Wrappers.Some(((Js.DigitValue(s[0]) * 16 + Js.DigitValue(s[1])) * 16 + Js.DigitValue(s[2])) * 16 + Js.DigitValue(s[3]))
    else
      Wrappers.None
  }

  predicate IsHighSurrogate(u: nat) { 0xD800 <= u < 0xDC00 }
  predicate IsLowSurrogate(u: nat) { 0xDC00 <= u < 0xE000 }

  /** One character of a string literal body, at a position that is not the
      closing quote: an escape or an unescaped character other than a
      control character.  A `\uXXXX` escape for a high surrogate must be
      followed by one for a low surrogate; the pair stands for one
      character. */
  function ParseChar(s: string): (r: Js.Result<(char, string)>)
    requires |s| > 0 && s[0] != '"'
    ensures r.Failure? ==> r.error == Js.SyntaxError
    ensures r.Success? ==> |r.value.1| < |s|
  {
    if s[0] == '\\' then
      if |s| < 2 then Wrappers.Failure(Js.SyntaxError)
      else if s[1] == '"' then Wrappers.Success(('"', s[2..]))
      else if s[1] == '\\' then Wrappers.Success(('\\', s[2..]))
      else if s[1] == '/' then Wrappers.Success(('/', s[2..]))
      else if s[1] == 'b' then Wrappers.Success(('\U{0008}', s[2..]))
      else if s[1] == 'f' then Wrappers.Success(('\U{000C}', s[2..]))
      else if s[1] == 'n' then Wrappers.Success(('\n', s[2..]))
      else if s[1] == 'r' then Wrappers.Success(('\r', s[2..]))
      else if s[1] == 't' then Wrappers.Success(('\t', s[2..]))
      else if s[1] == 'u' then
        match HexEscapeValue(s[2..])
        case None => Wrappers.Failure(Js.SyntaxError)
        case Some(u) =>
          if IsHighSurrogate(u) then
            if |s| >= 8 && s[6] == '\\' && s[7] == 'u' then
              match HexEscapeValue(s[8..])
              case Some(low) =>
                if IsLowSurrogate(low) then
                  Wrappers.Success((((u - 0xD800) * 0x400 + (low - 0xDC00) + 0x1_0000) as char, s[12..]))
                else Wrappers.Failure(Js.SyntaxError)
              case None => Wrappers.Failure(Js.SyntaxError)
            else Wrappers.Failure(Js.SyntaxError)
          else if IsLowSurrogate(u) then Wrappers.Failure(Js.SyntaxError)
          else Wrappers.Success((u as char, s[6..]))
      else Wrappers.Failure(Js.SyntaxError)
    else if s[0] < ' ' then Wrappers.Failure(Js.SyntaxError)
    else Wrappers.Success((s[0], s[1..]))
  }

  /** A string literal body up to and including its closing quote. */
  function ParseStringBody(s: string): (r: Js.Result<(string, string)>)
    ensures r.Failure? ==> r.error == Js.SyntaxError
    ensures r.Success? ==> |r.value.1| < |s|
    decreases |s|
  {
    if |s| == 0 then Wrappers.Failure(Js.SyntaxError)
    else if s[0] == '"' then Wrappers.Success(("", s[1..]))
    else
      var c :- ParseChar(s);
      var tail :- ParseStringBody(c.1);
      Wrappers.Success(([c.0] + tail.0, tail.1))
  }

  /** `text` starts with `word`. */
  predicate StartsWith(text: string, word: string) {
    |word| <= |text| && text[..|word|] == word
  }

  /** One value after optional white space; the text after it. */
  function ParseValue(s: string): (r: Js.Result<(Value, string)>)
    ensures r.Failure? ==> r.error == Js.SyntaxError
    ensures r.Success? ==> |r.value.1| < |s| && NoBigInt(r.value.0)
    decreases |s|, 0
  {
    var t := SkipWhiteSpace(s);
    if |t| == 0 then Wrappers.Failure(Js.SyntaxError)
    else if t[0] == '{' then ParseObject(t[1..])
    else if t[0] == '[' then ParseArray(t[1..])
    else if t[0] == '"' then
      var body :- ParseStringBody(t[1..]);
      Wrappers.Success((Str(body.0), body.1))
    else if t[0] == 'n' then
      if StartsWith(t, "null") then Wrappers.Success((Null, t[4..])) else Wrappers.Failure(Js.SyntaxError)
    else if t[0] == 't' then
      if StartsWith(t, "true") then Wrappers.Success((Bool(true), t[4..])) else Wrappers.Failure(Js.SyntaxError)
    else if t[0] == 'f' then
      if StartsWith(t, "false") then Wrappers.Success((Bool(false), t[5..])) else Wrappers.Failure(Js.SyntaxError)
    else if t[0] == '-' || Js.IsDecimalDigit(t[0]) then ParseNumber(t)
    else Wrappers.Failure(Js.SyntaxError)
  }

  /** A number token: the longest run of number characters, which must
      follow the number grammar. */
  function ParseNumber(t: string): (r: Js.Result<(Value, string)>)
    requires |t| > 0 && IsNumberChar(t[0])
    ensures r.Failure? ==> r.error == Js.SyntaxError
    ensures r.Success? ==> |r.value.1| < |t| && r.value.0.Num?
  {
    var n := NumberRun(t);
    if ValidNumber(t[..n]) then Wrappers.Success((Num(t[..n]), t[n..]))
    else Wrappers.Failure(Js.SyntaxError)
  }

  /** The rest of an array after its `[`. */
  function ParseArray(s: string): (r: Js.Result<(Value, string)>)
    ensures r.Failure? ==> r.error == Js.SyntaxError
    ensures r.Success? ==> |r.value.1| < |s| && NoBigInt(r.value.0)
    decreases |s|, 2
  {
    var t := SkipWhiteSpace(s);
    if |t| > 0 && t[0] == ']' then Wrappers.Success((Arr([]), t[1..]))
    else
      var items :- ParseElements(t);
      Wrappers.Success((Arr(items.0), items.1))
  }

  /** One or more comma-separated values and the closing `]`. */
  function ParseElements(s: string): (r: Js.Result<(seq<Value>, string)>)
    ensures r.Failure? ==> r.error == Js.SyntaxError
    ensures r.Success? ==> |r.value.1| < |s|
    ensures r.Success? ==> forall i :: 0 <= i < |r.value.0| ==> NoBigInt(r.value.0[i])
    decreases |s|, 1
  {
    var first :- ParseValue(s);
    var t := SkipWhiteSpace(first.1);
    if |t| > 0 && t[0] == ']' then Wrappers.Success(([first.0], t[1..]))
    else if |t| > 0 && t[0] == ',' then
      var more :- ParseElements(t[1..]);
      Wrappers.Success(([first.0] + more.0, more.1))
    else Wrappers.Failure(Js.SyntaxError)
  }

  /** The rest of an object after its `{`. */
  function ParseObject(s: string): (r: Js.Result<(Value, string)>)
    ensures r.Failure? ==> r.error == Js.SyntaxError
    ensures r.Success? ==> |r.value.1| < |s| && NoBigInt(r.value.0)
    decreases |s|, 2
  {
    var t := SkipWhiteSpace(s);
    if |t| > 0 && t[0] == '}' then Wrappers.Success((Obj([]), t[1..]))
    else
      var ms :- ParseMembers(t);
      Wrappers.Success((Obj(ms.0), ms.1))
  }

  /** One or more comma-separated `"key": value` members and the closing `}`. */
  function ParseMembers(s: string): (r: Js.Result<(seq<Member>, string)>)
    ensures r.Failure? ==> r.error == Js.SyntaxError
    ensures r.Success? ==> |r.value.1| < |s|
    ensures r.Success? ==> forall i :: 0 <= i < |r.value.0| ==> NoBigInt(r.value.0[i].value)
    decreases |s|, 1
  {
    var t := SkipWhiteSpace(s);
    if |t| == 0 || t[0] != '"' then Wrappers.Failure(Js.SyntaxError)
    else
      var key :- ParseStringBody(t[1..]);
      var u := SkipWhiteSpace(key.1);
      if |u| == 0 || u[0] != ':' then Wrappers.Failure(Js.SyntaxError)
      else
        var value :- ParseValue(u[1..]);
        var m := Member(key.0, value.0);
        var w := SkipWhiteSpace(value.1);
        if |w| > 0 && w[0] == '}' then Wrappers.Success(([m], w[1..]))
        else if |w| > 0 && w[0] == ',' then
          var more :- ParseMembers(w[1..]);
          Wrappers.Success(([m] + more.0, more.1))
        else Wrappers.Failure(Js.SyntaxError)
  }

  /** `JSON.parse(text)`: one value, surrounded by optional white space, and
      nothing else; a SyntaxError otherwise.  The result never holds a
      BigInt. */
  function Parse(text: string): (r: Js.Result<Value>)
    ensures r.Success? ==> NoBigInt(r.value)
    ensures r.Failure? ==> r.error == Js.SyntaxError
  {
    var v :- ParseValue(text);
    if |SkipWhiteSpace(v.1)| == 0 then Wrappers.Success(v.0) else Wrappers.Failure(Js.SyntaxError)
  }

  // ---------------------------------------------------------------------
  // The round trip
  // ---------------------------------------------------------------------

  /** The text that may follow a printed value inside printed JSON. */
  predicate Delimited(rest: string) {
    |rest| == 0 || rest[0] == ',' || rest[0] == ']' || rest[0] == '}'
  }

  lemma ParseCharEscape(c: char, rest: string)
    ensures |EscapeChar(c)| > 0 && EscapeChar(c)[0] != '"'
    ensures ParseChar(EscapeChar(c) + rest) == Wrappers.Success((c, rest))
  {
    if c == '\U{0008}' || c == '\t' || c == '\n' || c == '\U{000C}' || c == '\r' || c == '"' || c == '\\' {
      ParseShortEscape(c, rest);
    } else if c < ' ' {
      ParseControlEscape(c, rest);
    } else {
      assert (EscapeChar(c) + rest)[1..] == rest;
    }
  }

  /** A character with a two-character escape. */
  lemma ParseShortEscape(c: char, rest: string)
    requires c == '\U{0008}' || c == '\t' || c == '\n' || c == '\U{000C}' || c == '\r' || c == '"' || c == '\\'
    ensures |EscapeChar(c)| == 2 && EscapeChar(c)[0] == '\\'
    ensures ParseChar(EscapeChar(c) + rest) == Wrappers.Success((c, rest))
  {
    assert (EscapeChar(c) + rest)[2..] == rest;
  }

  /** Any other control character, escaped as `\u00` and two hex digits. */
  lemma ParseControlEscape(c: char, rest: string)
    requires c < ' '
    requires !(c == '\U{0008}' || c == '\t' || c == '\n' || c == '\U{000C}' || c == '\r')
    ensures |EscapeChar(c)| == 6 && EscapeChar(c)[0] == '\\'
    ensures ParseChar(EscapeChar(c) + rest) == Wrappers.Success((c, rest))
  {
    var s := EscapeChar(c) + rest;
    var digits := ['0', '0', HexDigit(c as nat / 16), HexDigit(c as nat % 16)];
    assert s == "\\u" + (digits + rest);
    assert s[2..] == digits + rest;
    HexEscapeOfControl(c, rest);
    assert s[6..] == rest;
  }

  lemma HexEscapeOfControl(c: char, rest: string)
    requires c < ' '
    ensures HexEscapeValue(['0', '0', HexDigit(c as nat / 16), HexDigit(c as nat % 16)] + rest) == Wrappers.Some(c as nat)
  {
    var hi := c as nat / 16;
    var lo := c as nat % 16;
    HexDigitOf(hi);
    HexDigitOf(lo);
  }

  lemma HexDigitOf(d: nat)
    requires d < 16
    ensures IsHexDigit(HexDigit(d)) && Js.DigitValue(HexDigit(d)) == d
  {
    assert "0123456789abcdef"[d] == HexDigit(d);
  }

  lemma {:induction false} ParseStringBodyQuote(s: string, rest: string)
    ensures ParseStringBody(Escape(s) + "\"" + rest) == Wrappers.Success((s, rest))
    decreases |s|
  {
    if |s| == 0 {
      assert Escape(s) + "\"" + rest == "\"" + rest;
    } else {
      var text := Escape(s) + "\"" + rest;
      var tail := Escape(s[1..]) + "\"" + rest;
      assert text == EscapeChar(s[0]) + tail;
      ParseCharEscape(s[0], tail);
      ParseStringBodyQuote(s[1..], rest);
      assert [s[0]] + s[1..] == s;
    }
  }

  lemma {:induction false} ParseValuePrint(v: Value, rest: string)
    requires NoBigInt(v)
    requires Delimited(rest)
    ensures ParseValue(Print(v) + rest) == Wrappers.Success((v, rest))
    decreases v, 2
  {
    match v
    case Null => ParseLiteralPrint(v, rest);
    case Bool(_) => ParseLiteralPrint(v, rest);
    case Num(n) => ParseNumberPrint(n, rest);
    case Str(s) => ParseStringPrint(s, rest);
    case Arr(items) => ParseArrayPrint(items, rest);
    case Obj(ms) => ParseObjectPrint(ms, rest);
  }

  lemma ParseLiteralPrint(v: Value, rest: string)
    requires v.Null? || v.Bool?
    ensures ParseValue(Print(v) + rest) == Wrappers.Success((v, rest))
  {
    var text := Print(v) + rest;
    assert SkipWhiteSpace(text) == text;
    if v.Null? {
      assert text[..4] == "null" && text[4..] == rest;
    } else if v.b {
      assert !StartsWith(text, "null");
      assert text[..4] == "true" && text[4..] == rest;
    } else {
      assert !StartsWith(text, "null") && !StartsWith(text, "true");
      assert text[..5] == "false" && text[5..] == rest;
    }
  }

  lemma ParseNumberPrint(n: Float, rest: string)
    requires Delimited(rest)
    ensures ParseValue(Print(Num(n)) + rest) == Wrappers.Success((Num(n), rest))
  {
    var text := n + rest;
    assert Print(Num(n)) == n;
    ValidNumberShape(n);
    assert text[0] == n[0];
    assert SkipWhiteSpace(text) == text;
    ParseNumberOf(n, rest);
  }

  lemma ParseNumberOf(n: Float, rest: string)
    requires Delimited(rest)
    requires |n| > 0 && IsNumberChar(n[0])
    requires forall i :: 0 <= i < |n| ==> IsNumberChar(n[i])
    ensures ParseNumber(n + rest) == Wrappers.Success((Num(n), rest))
  {
    var text := n + rest;
    NumberRunOf(n, rest);
    assert text[..|n|] == n && text[|n|..] == rest;
  }

  lemma ParseStringPrint(s: string, rest: string)
    ensures ParseValue(Print(Str(s)) + rest) == Wrappers.Success((Str(s), rest))
  {
    var text := Print(Str(s)) + rest;
    assert text == "\"" + (Escape(s) + "\"" + rest);
    assert SkipWhiteSpace(text) == text;
    assert text[1..] == Escape(s) + "\"" + rest;
    ParseStringBodyQuote(s, rest);
  }

  lemma {:induction false} ParseArrayPrint(items: seq<Value>, rest: string)
    requires forall i :: 0 <= i < |items| ==> NoBigInt(items[i])
    requires Delimited(rest)
    ensures NoBigInt(Arr(items))
    ensures ParseValue(Print(Arr(items)) + rest) == Wrappers.Success((Arr(items), rest))
    decreases items, 1
  {
    var inner := PrintItems(items) + "]" + rest;
    Bracketed(Print(Arr(items)), '[', PrintItems(items), "]", rest);
    ParseValueOpen('[', inner);
    if |items| == 0 {
      assert PrintItems(items) == "";
      EmptyPrefix("]", rest);
      ParseArrayClose(rest);
    } else {
      PrintItemsStart(items);
      assert inner[0] == PrintItems(items)[0];
      ParseElementsPrint(items, rest);
      ParseArrayOfElements(inner, items, rest);
    }
  }

  lemma {:induction false} ParseObjectPrint(ms: seq<Member>, rest: string)
    requires forall i :: 0 <= i < |ms| ==> NoBigInt(ms[i].value)
    requires Delimited(rest)
    ensures NoBigInt(Obj(ms))
    ensures ParseValue(Print(Obj(ms)) + rest) == Wrappers.Success((Obj(ms), rest))
    decreases ms, 2
  {
    var inner := PrintMembers(ms) + "}" + rest;
    Bracketed(Print(Obj(ms)), '{', PrintMembers(ms), "}", rest);
    ParseValueOpen('{', inner);
    if |ms| == 0 {
      assert PrintMembers(ms) == "";
      EmptyPrefix("}", rest);
      ParseObjectClose(rest);
    } else {
      PrintMembersStart(ms);
      assert inner[0] == PrintMembers(ms)[0];
      ParseMembersPrint(ms, rest);
      ParseObjectOfMembers(inner, ms, rest);
    }
  }

  lemma Bracketed(whole: string, open: char, body: string, close: string, rest: string)
    requires whole == [open] + body + close
    ensures whole + rest == [open] + (body + close + rest)
  {
  }

  lemma EmptyPrefix(close: string, rest: string)
    ensures "" + close + rest == close + rest
  {
  }

  /** A value that opens with a bracket is the rest of an array or object. */
  lemma ParseValueOpen(open: char, body: string)
    requires open == '[' || open == '{'
    ensures ParseValue([open] + body) == if open == '[' then ParseArray(body) else ParseObject(body)
  {
    var text := [open] + body;
    assert SkipWhiteSpace(text) == text;
    assert text[1..] == body;
  }

  lemma ParseArrayClose(rest: string)
    ensures ParseArray("]" + rest) == Wrappers.Success((Arr([]), rest))
  {
    assert ("]" + rest)[1..] == rest;
  }

  lemma ParseObjectClose(rest: string)
    ensures ParseObject("}" + rest) == Wrappers.Success((Obj([]), rest))
  {
    assert ("}" + rest)[1..] == rest;
  }

  lemma ParseArrayOfElements(inner: string, items: seq<Value>, rest: string)
    requires |inner| > 0 && inner[0] != ']' && !IsJsonWhiteSpace(inner[0])
    requires ParseElements(inner) == Wrappers.Success((items, rest))
    ensures ParseArray(inner) == Wrappers.Success((Arr(items), rest))
  {
    assert SkipWhiteSpace(inner) == inner;
  }

  lemma ParseObjectOfMembers(inner: string, ms: seq<Member>, rest: string)
    requires |inner| > 0 && inner[0] != '}' && !IsJsonWhiteSpace(inner[0])
    requires ParseMembers(inner) == Wrappers.Success((ms, rest))
    ensures ParseObject(inner) == Wrappers.Success((Obj(ms), rest))
  {
    assert SkipWhiteSpace(inner) == inner;
  }

  lemma PrintMembersStart(ms: seq<Member>)
    requires |ms| > 0
    requires forall i :: 0 <= i < |ms| ==> NoBigInt(ms[i].value)
    ensures |PrintMembers(ms)| > 0 && PrintMembers(ms)[0] == '"'
  {
    var first := PrintMember(ms[0]);
    assert first[0] == '"';
    if |ms| > 1 {
      assert PrintMembers(ms) == first + ("," + PrintMembers(ms[1..]));
    }
  }

  /** A printed non-empty list of values starts with neither white space
      nor a closing bracket. */
  lemma PrintItemsStart(items: seq<Value>)
    requires |items| > 0
    requires forall i :: 0 <= i < |items| ==> NoBigInt(items[i])
    ensures PrintItems(items)[0] == Print(items[0])[0]
    ensures !IsJsonWhiteSpace(PrintItems(items)[0]) && PrintItems(items)[0] != ']'
  {
    PrintStart(items[0]);
  }

  lemma PrintStart(v: Value)
    requires NoBigInt(v)
    ensures !IsJsonWhiteSpace(Print(v)[0]) && Print(v)[0] != ']' && Print(v)[0] != '}'
  {
    if v.Num? {
      ValidNumberShape(v.n);
    }
  }

  lemma {:induction false} ParseElementsPrint(items: seq<Value>, rest: string)
    requires |items| > 0
    requires forall i :: 0 <= i < |items| ==> NoBigInt(items[i])
    requires Delimited(rest)
    ensures ParseElements(PrintItems(items) + "]" + rest) == Wrappers.Success((items, rest))
    decreases items, 0
  {
    ParseValuePrint(items[0], ItemsAfterFirst(items, rest));
    if |items| > 1 {
      ParseElementsPrint(items[1..], rest);
    }
    ParseElementsStep(items, rest);
  }

  /** What follows the first element of a printed element list. */
  function ItemsAfterFirst(items: seq<Value>, rest: string): (after: string)
    requires |items| > 0
    requires forall i :: 0 <= i < |items| ==> NoBigInt(items[i])
    ensures Delimited(after) && |after| > 0
    ensures |items| == 1 ==> after == "]" + rest
    ensures |items| > 1 ==> after == "," + (PrintItems(items[1..]) + "]" + rest)
  {
    if |items| == 1 then "]" + rest else "," + (PrintItems(items[1..]) + "]" + rest)
  }

  /** A printed element list parses once its first element and the
      elements after it do. */
  lemma ParseElementsStep(items: seq<Value>, rest: string)
    requires |items| > 0
    requires forall i :: 0 <= i < |items| ==> NoBigInt(items[i])
    requires ParseValue(Print(items[0]) + ItemsAfterFirst(items, rest))
          == Wrappers.Success((items[0], ItemsAfterFirst(items, rest)))
    requires |items| > 1 ==> ParseElements(PrintItems(items[1..]) + "]" + rest) == Wrappers.Success((items[1..], rest))
    ensures ParseElements(PrintItems(items) + "]" + rest) == Wrappers.Success((items, rest))
  {
    var text := PrintItems(items) + "]" + rest;
    PrintItemsSplit(items, rest);
    if |items| == 1 {
      ParseElementsLast(text, items, rest);
    } else {
      ParseElementsNext(text, items, PrintItems(items[1..]) + "]" + rest, rest);
    }
  }

  lemma PrintItemsSplit(items: seq<Value>, rest: string)
    requires |items| > 0
    requires forall i :: 0 <= i < |items| ==> NoBigInt(items[i])
    ensures PrintItems(items) + "]" + rest == Print(items[0]) + ItemsAfterFirst(items, rest)
  {
    var tail := if |items| > 1 then PrintItems(items[1..]) else "";
    JoinFirst(PrintItems(items), Print(items[0]), tail, ItemsAfterFirst(items, rest), "]", rest, |items| > 1);
  }

  /** The last element of an array and its closing bracket. */
  lemma ParseElementsLast(s: string, items: seq<Value>, rest: string)
    requires |items| == 1
    requires ParseValue(s) == Wrappers.Success((items[0], "]" + rest))
    ensures ParseElements(s) == Wrappers.Success((items, rest))
  {
    AfterPunctuation(']', rest);
    assert [items[0]] == items;
  }

  /** An element followed by a comma and the remaining elements. */
  lemma ParseElementsNext(s: string, items: seq<Value>, tail: string, rest: string)
    requires |items| > 1
    requires ParseValue(s) == Wrappers.Success((items[0], "," + tail))
    requires ParseElements(tail) == Wrappers.Success((items[1..], rest))
    ensures ParseElements(s) == Wrappers.Success((items, rest))
  {
    AfterPunctuation(',', tail);
    FirstAndRest(items);
  }

  lemma {:induction false} ParseMembersPrint(ms: seq<Member>, rest: string)
    requires |ms| > 0
    requires forall i :: 0 <= i < |ms| ==> NoBigInt(ms[i].value)
    requires Delimited(rest)
    ensures ParseMembers(PrintMembers(ms) + "}" + rest) == Wrappers.Success((ms, rest))
    decreases ms, 0
  {
    ParseValuePrint(ms[0].value, MembersAfterFirst(ms, rest));
    if |ms| > 1 {
      ParseMembersPrint(ms[1..], rest);
    }
    ParseMembersStep(ms, rest);
  }

  /** A printed member list parses once its first value and the members
      after it do. */
  lemma ParseMembersStep(ms: seq<Member>, rest: string)
    requires |ms| > 0
    requires forall i :: 0 <= i < |ms| ==> NoBigInt(ms[i].value)
    requires ParseValue(Print(ms[0].value) + MembersAfterFirst(ms, rest))
          == Wrappers.Success((ms[0].value, MembersAfterFirst(ms, rest)))
    requires |ms| > 1 ==> ParseMembers(PrintMembers(ms[1..]) + "}" + rest) == Wrappers.Success((ms[1..], rest))
    ensures ParseMembers(PrintMembers(ms) + "}" + rest) == Wrappers.Success((ms, rest))
  {
    var text := PrintMembers(ms) + "}" + rest;
    var valueText := Print(ms[0].value) + MembersAfterFirst(ms, rest);
    PrintMembersSplit(ms, rest);
    MemberHead(text, ms[0].key, valueText);
    if |ms| == 1 {
      ParseMembersLast(text, valueText, ms, rest);
    } else {
      ParseMembersNext(text, valueText, ms, PrintMembers(ms[1..]) + "}" + rest, rest);
    }
  }

  /** What a member's key and colon leave to parse. */
  predicate MemberHeadParses(s: string, key: string, valueText: string) {
    && |s| > 0 && s[0] == '"' && SkipWhiteSpace(s) == s
    && ParseStringBody(s[1..]) == Wrappers.Success((key, ":" + valueText))
  }

  lemma MemberHead(s: string, key: string, valueText: string)
    requires s == "\"" + (Escape(key) + "\"" + (":" + valueText))
    ensures MemberHeadParses(s, key, valueText)
  {
    assert s[1..] == Escape(key) + "\"" + (":" + valueText);
    ParseStringBodyQuote(key, ":" + valueText);
  }

  /** The last member of an object and its closing brace. */
  lemma ParseMembersLast(s: string, valueText: string, ms: seq<Member>, rest: string)
    requires |ms| == 1
    requires MemberHeadParses(s, ms[0].key, valueText)
    requires ParseValue(valueText) == Wrappers.Success((ms[0].value, "}" + rest))
    ensures ParseMembers(s) == Wrappers.Success((ms, rest))
  {
    AfterPunctuation(':', valueText);
    AfterPunctuation('}', rest);
    assert [Member(ms[0].key, ms[0].value)] == ms;
  }

  /** A member followed by a comma and the remaining members. */
  lemma ParseMembersNext(s: string, valueText: string, ms: seq<Member>, tail: string, rest: string)
    requires |ms| > 1
    requires MemberHeadParses(s, ms[0].key, valueText)
    requires ParseValue(valueText) == Wrappers.Success((ms[0].value, "," + tail))
    requires ParseMembers(tail) == Wrappers.Success((ms[1..], rest))
    ensures ParseMembers(s) == Wrappers.Success((ms, rest))
  {
    AfterPunctuation(':', valueText);
    AfterPunctuation(',', tail);
    assert Member(ms[0].key, ms[0].value) == ms[0];
    FirstAndRest(ms);
  }

  /** What follows the first member of a printed member list. */
  function MembersAfterFirst(ms: seq<Member>, rest: string): (after: string)
    requires |ms| > 0
    requires forall i :: 0 <= i < |ms| ==> NoBigInt(ms[i].value)
    ensures Delimited(after) && |after| > 0
    ensures |ms| == 1 ==> after == "}" + rest
    ensures |ms| > 1 ==> after == "," + (PrintMembers(ms[1..]) + "}" + rest)
  {
    if |ms| == 1 then "}" + rest else "," + (PrintMembers(ms[1..]) + "}" + rest)
  }

  lemma PrintMembersSplit(ms: seq<Member>, rest: string)
    requires |ms| > 0
    requires forall i :: 0 <= i < |ms| ==> NoBigInt(ms[i].value)
    ensures PrintMembers(ms) + "}" + rest
         == "\"" + (Escape(ms[0].key) + "\"" + (":" + (Print(ms[0].value) + MembersAfterFirst(ms, rest))))
  {
    PrintMembersHead(ms, rest);
    PrintMemberText(ms[0], MembersAfterFirst(ms, rest));
  }

  lemma PrintMembersHead(ms: seq<Member>, rest: string)
    requires |ms| > 0
    requires forall i :: 0 <= i < |ms| ==> NoBigInt(ms[i].value)
    ensures PrintMembers(ms) + "}" + rest == PrintMember(ms[0]) + MembersAfterFirst(ms, rest)
  {
    var tail := if |ms| > 1 then PrintMembers(ms[1..]) else "";
    JoinFirst(PrintMembers(ms), PrintMember(ms[0]), tail, MembersAfterFirst(ms, rest), "}", rest, |ms| > 1);
  }

  lemma PrintMemberText(m: Member, after: string)
    requires NoBigInt(m.value)
    ensures PrintMember(m) + after == "\"" + (Escape(m.key) + "\"" + (":" + (Print(m.value) + after)))
  {
    Reassociate6("\"", Escape(m.key), "\"", ":", Print(m.value), after);
  }

  lemma AfterPunctuation(c: char, rest: string)
    ensures ([c] + rest)[1..] == rest
  {
  }

  lemma FirstAndRest<T>(xs: seq<T>)
    requires |xs| > 0
    ensures [xs[0]] + xs[1..] == xs
  {
  }

  /** A printed list and what follows it, split after its first entry:
      `more` says whether a comma and further entries follow. */
  lemma JoinFirst(whole: string, head: string, tail: string, after: string, close: string, rest: string, more: bool)
    requires more ==> whole == head + "," + tail && after == "," + (tail + close + rest)
    requires !more ==> whole == head && after == close + rest
    ensures whole + close + rest == head + after
  {
    if more {
      Reassociate5(head, ",", tail, close, rest);
    } else {
      Reassociate3(head, close, rest);
    }
  }

  lemma Reassociate3(a: string, b: string, c: string)
    ensures a + b + c == a + (b + c)
  {
  }

  lemma Reassociate5(a: string, b: string, c: string, d: string, e: string)
    ensures a + b + c + d + e == a + (b + (c + d + e))
  {
  }

  lemma Reassociate6(a: string, b: string, c: string, d: string, e: string, f: string)
    ensures a + b + c + d + e + f == a + (b + c + (d + (e + f)))
  {
  }

  /** A number token ends where its text ends when a delimiter follows. */
  lemma {:induction false} NumberRunOf(n: string, rest: string)
    requires forall i :: 0 <= i < |n| ==> IsNumberChar(n[i])
    requires Delimited(rest)
    ensures NumberRun(n + rest) == |n|
    decreases |n|
  {
    if |n| == 0 {
      assert n + rest == rest;
    } else {
      assert (n + rest)[1..] == n[1..] + rest;
      NumberRunOf(n[1..], rest);
    }
  }

  /** Valid number text starts with `-` or a digit and holds only number
      characters. */
  lemma ValidNumberShape(s: string)
    requires ValidNumber(s)
    ensures |s| > 0 && (s[0] == '-' || Js.IsDecimalDigit(s[0]))
    ensures forall i :: 0 <= i < |s| ==> IsNumberChar(s[i])
  {
    var a := if |s| > 0 && s[0] == '-' then s[1..] else s;
    var n := DigitRun(a);
    ValidFractionChars(a[n..]);
    assert a == a[..n] + a[n..];
    assert forall i :: 0 <= i < |a| ==> IsNumberChar(a[i]);
  }

  lemma ValidFractionChars(s: string)
    requires ValidFraction(s)
    ensures forall i :: 0 <= i < |s| ==> IsNumberChar(s[i])
  {
    if |s| > 0 && s[0] == '.' {
      var n := DigitRun(s[1..]);
      ValidExponentChars(s[1 + n..]);
      forall i | 1 <= i < 1 + n
        ensures IsNumberChar(s[i])
      {
        assert s[i] == s[1..][i - 1];
      }
      assert forall i :: 1 + n <= i < |s| ==> s[i] == s[1 + n..][i - 1 - n];
    } else {
      ValidExponentChars(s);
    }
  }

  lemma ValidExponentChars(s: string)
    requires ValidExponent(s)
    ensures forall i :: 0 <= i < |s| ==> IsNumberChar(s[i])
  {
    if |s| > 0 {
      var b := if |s| > 1 && (s[1] == '+' || s[1] == '-') then 2 else 1;
      forall i | b <= i < |s|
        ensures IsNumberChar(s[i])
      {
        assert s[i] == s[b..][i - b];
      }
    }
  }
}
