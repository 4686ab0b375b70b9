/**
 * A reader of JSON text without insignificant whitespace, defined on the text
 * alone (sections 2 to 7 of RFC 8259). What a receiver of the signed text sees.
 */
module JsonParser {
  import opened JsStrings
  import opened Options
  import opened CanonicalJson

  /** What was read from the front of a text, and what is left of it. */
  datatype Parsed<T> = NoParse | Parsed(value: T, rest: JsString)

  // ---------------------------------------------------------------------
  // Strings
  // ---------------------------------------------------------------------

  /** A hexadecimal digit in either case; 16 for anything else. */
  function HexValue(c: CodeUnit): nat {
    if 48 <= c <= 57 then (c as int) - 48
    else if 97 <= c <= 102 then (c as int) - 87
    else if 65 <= c <= 70 then (c as int) - 55
    else 16
  }

  predicate IsHex(c: CodeUnit) { HexValue(c) < 16 }

  /** What a letter stands for after a backslash. */
  function Unescaped(c: CodeUnit): Option<CodeUnit> {
    if c == 34 || c == 92 || c == 47 then Some(c)
    else if c == 98 then Some(8)
    else if c == 102 then Some(12)
    else if c == 110 then Some(10)
    else if c == 114 then Some(13)
    else if c == 116 then Some(9)
    else None
  }

  /** The first code unit that a text, inside a string, spells. */
  function ParseUnit(t: JsString): (r: Parsed<CodeUnit>)
    ensures r.Parsed? ==> |r.rest| < |t|
  {
    if t == [] || t[0] < 32 || t[0] == 34 then NoParse
    else if t[0] != 92 then Parsed(t[0], t[1..])
    else if |t| < 2 then NoParse
    else if t[1] == 117 then
      if |t| >= 6 && IsHex(t[2]) && IsHex(t[3]) && IsHex(t[4]) && IsHex(t[5]) then
        Parsed((4096 * HexValue(t[2]) + 256 * HexValue(t[3]) + 16 * HexValue(t[4]) + HexValue(t[5])) as CodeUnit,
               t[6..])
      else NoParse
    else
      match Unescaped(t[1])
      case Some(c) => Parsed(c, t[2..])
      case None => NoParse
  }

  /** A string, from after its opening quote to its closing one. */
  function ParseString(t: JsString): (r: Parsed<JsString>)
    ensures r.Parsed? ==> |r.rest| < |t|
    decreases |t|
  {
    if t != [] && t[0] == 34 then Parsed([], t[1..])
    else
      match ParseUnit(t)
      case NoParse => NoParse
      case Parsed(c, rest) =>
        match ParseString(rest)
        case NoParse => NoParse
        case Parsed(s, after) => Parsed([c] + s, after)
  }

  // ---------------------------------------------------------------------
  // Values
  // ---------------------------------------------------------------------

  predicate StartsWith(t: JsString, c: CodeUnit) {
    t != [] && t[0] == c
  }

  function ParseLiteral(t: JsString, literal: JsString, v: Json): (r: Parsed<Json>)
    requires literal != []
    ensures r.Parsed? ==> |r.rest| < |t|
  {
    if |literal| <= |t| && t[..|literal|] == literal then Parsed(v, t[|literal|..]) else NoParse
  }

  /** How far the characters of a number go. */
  function NumberLength(t: JsString): (n: nat)
    ensures n <= |t|
    ensures t != [] && IsNumberUnit(t[0]) ==> n > 0
  {
    if t == [] || !IsNumberUnit(t[0]) then 0 else 1 + NumberLength(t[1..])
  }

  function ParseNumber(t: JsString): (r: Parsed<Json>)
    ensures r.Parsed? ==> |r.rest| < |t|
  {
    var n := NumberLength(t);
    if n > 0 && IsNumberText(t[..n]) then Parsed(JNumber(t[..n]), t[n..]) else NoParse
  }

  function ParseValue(t: JsString): (r: Parsed<Json>)
    ensures r.Parsed? ==> |r.rest| < |t|
    decreases |t|, 0
  {
    if t == [] then NoParse
    else if t[0] == 110 then ParseLiteral(t, [110, 117, 108, 108], JNull)
    else if t[0] == 116 then ParseLiteral(t, [116, 114, 117, 101], JBool(true))
    else if t[0] == 102 then ParseLiteral(t, [102, 97, 108, 115, 101], JBool(false))
    else if t[0] == 34 then
      match ParseString(t[1..])
      case NoParse => NoParse
      case Parsed(s, rest) => Parsed(JString(s), rest)
    else if t[0] == 91 then ParseArray(t[1..])
    else if t[0] == 123 then ParseObject(t[1..])
    else ParseNumber(t)
  }

  /** An array, from after its opening bracket. */
  function ParseArray(t: JsString): (r: Parsed<Json>)
    ensures r.Parsed? ==> |r.rest| < |t|
    decreases |t|, 3
  {
    if StartsWith(t, 93) then Parsed(JArray([]), t[1..])
    else
      match ParseItems(t)
      case NoParse => NoParse
      case Parsed(items, rest) => Parsed(JArray(items), rest)
  }

  /** One or more items, to the closing bracket. */
  function ParseItems(t: JsString): (r: Parsed<seq<Json>>)
    ensures r.Parsed? ==> |r.rest| < |t|
    decreases |t|, 1
  {
    match ParseValue(t)
    case NoParse => NoParse
    case Parsed(v, rest) =>
      if StartsWith(rest, 93) then Parsed([v], rest[1..])
      else if StartsWith(rest, 44) then
        match ParseItems(rest[1..])
        case NoParse => NoParse
        case Parsed(items, after) => Parsed([v] + items, after)
      else NoParse
  }

  /** An object, from after its opening brace. */
  function ParseObject(t: JsString): (r: Parsed<Json>)
    ensures r.Parsed? ==> |r.rest| < |t|
    decreases |t|, 3
  {
    if StartsWith(t, 125) then Parsed(JObject([]), t[1..])
    else
      match ParseMembers(t)
      case NoParse => NoParse
      case Parsed(entries, rest) => Parsed(JObject(entries), rest)
  }

  /** A key, a colon and a value. */
  function ParseMember(t: JsString): (r: Parsed<Entry>)
    ensures r.Parsed? ==> |r.rest| < |t|
    decreases |t|, 1
  {
    if !StartsWith(t, 34) then NoParse
    else
      match ParseString(t[1..])
      case NoParse => NoParse
      case Parsed(key, rest) =>
        if !StartsWith(rest, 58) then NoParse
        else
          match ParseValue(rest[1..])
          case NoParse => NoParse
          case Parsed(v, after) => Parsed(Entry(key, v), after)
  }

  /** One or more members, to the closing brace. */
  function ParseMembers(t: JsString): (r: Parsed<seq<Entry>>)
    ensures r.Parsed? ==> |r.rest| < |t|
    decreases |t|, 2
  {
    match ParseMember(t)
    case NoParse => NoParse
    case Parsed(e, rest) =>
      if StartsWith(rest, 125) then Parsed([e], rest[1..])
      else if StartsWith(rest, 44) then
        match ParseMembers(rest[1..])
        case NoParse => NoParse
        case Parsed(entries, after) => Parsed([e] + entries, after)
      else NoParse
  }

  /** The value a whole text spells, members as written. */
  function Parse(t: JsString): Option<Json> {
    match ParseValue(t)
    case Parsed(v, rest) => if rest == [] then Some(v) else None
    case NoParse => None
  }

  // ---------------------------------------------------------------------
  // Whitespace outside strings
  // ---------------------------------------------------------------------

  /** Outside strings, inside one, or inside one after a backslash. */
  datatype Place = Outside | Inside | AfterBackslash

  function NextPlace(place: Place, c: CodeUnit): Place {
    match place
    case Outside => if c == 34 then Inside else Outside
    case Inside => if c == 34 then Outside else if c == 92 then AfterBackslash else Inside
    case AfterBackslash => Inside
  }

  predicate IsBlank(c: CodeUnit) { c == 32 || c == 9 || c == 10 || c == 13 }

  /** Where reading the text from `place` ends. */
  function PlaceAfter(place: Place, t: JsString): Place
    decreases |t|
  {
    if t == [] then place else PlaceAfter(NextPlace(place, t[0]), t[1..])
  }

  /** No whitespace character stands outside a string. */
  predicate NoBlankOutside(place: Place, t: JsString)
    decreases |t|
  {
    t != [] ==> !(place == Outside && IsBlank(t[0])) && NoBlankOutside(NextPlace(place, t[0]), t[1..])
  }
}
