/**
 JSON values, and a reader for JSON texts (RFC 8259).  The reader knows nothing of the serialisers whose
 texts it reads: it takes any white space, any key order and every escape the standard has.
 */
module JsonReader {
  import opened Wrappers

  predicate NumberChar(c: char) {
    '0' <= c <= '9' || c == '-' || c == '+' || c == '.' || c == 'e' || c == 'E'
  }

  /** The digits of a number as they are printed. */
  type NumberToken = t: string |
    t != "" && ('0' <= t[0] <= '9' || t[0] == '-') && forall i :: 0 <= i < |t| ==> NumberChar(t[i])
    witness "0"

  datatype Json =
    | Null
    | Bool(b: bool)
    | Number(token: NumberToken)
    | Str(s: string)
    | Arr(items: seq<Json>)
    | Obj(members: map<string, Json>)

  /** What was read from the front of a text, and the rest of it. */
  datatype Read<+T> = Fails | Reads(value: T, rest: string)

  function Skip(t: string): (r: string)
    ensures |r| <= |t|
  {
    if t != "" && (t[0] == ' ' || t[0] == '\t' || t[0] == '\n' || t[0] == '\r') then Skip(t[1..]) else t
  }

  // ------------------------------------------------------------------------------------------
  // Strings (section 7)
  // ------------------------------------------------------------------------------------------

  function HexValue(c: char): (n: Option<int>)
    ensures n.Some? ==> 0 <= n.value < 16
  {
    if '0' <= c <= '9' then Some(c as int - '0' as int)
    else if 'a' <= c <= 'f' then Some(c as int - 'a' as int + 10)
    else if 'A' <= c <= 'F' then Some(c as int - 'A' as int + 10)
    else None
  }

  /** Four hexadecimal digits. */
  function CodeUnit(t: string): (u: Option<int>)
    ensures u.Some? ==> |t| >= 4 && 0 <= u.value < 0x10000
  {
    if |t| < 4 then None
    else
      match (HexValue(t[0]), HexValue(t[1]), HexValue(t[2]), HexValue(t[3]))
      case (Some(a), Some(b), Some(c), Some(d)) => Some(((a * 16 + b) * 16 + c) * 16 + d)
      case _ => None
  }

  /** The code unit after `\u`, and the second one of a surrogate pair. */
  function ReadUnicode(t: string): (r: Read<char>)
    ensures r.Reads? ==> |r.rest| < |t|
  {
    match CodeUnit(t)
    case None => Fails
    case Some(u) =>
      if u < 0xD800 || u >= 0xE000 then Reads(u as char, t[4..])
      else if u >= 0xDC00 || |t| < 6 || t[4] != '\\' || t[5] != 'u' then Fails
      else
        match CodeUnit(t[6..])
        case None => Fails
        case Some(l) =>
          if 0xDC00 <= l < 0xE000 then Reads((0x10000 + (u - 0xD800) * 0x400 + (l - 0xDC00)) as char, t[10..])
          else Fails
  }

  function ReadChar(t: string): (r: Read<char>)
    requires t != ""
    ensures r.Reads? ==> |r.rest| < |t|
  {
    if t[0] < ' ' then Fails
    else if t[0] != '\\' then Reads(t[0], t[1..])
    else if |t| < 2 then Fails
    else
      match t[1]
      case '\"' => Reads('\"', t[2..])
      case '\\' => Reads('\\', t[2..])
      case '/' => Reads('/', t[2..])
      case 'b' => Reads(8 as char, t[2..])
      case 'f' => Reads(12 as char, t[2..])
      case 'n' => Reads(10 as char, t[2..])
      case 'r' => Reads(13 as char, t[2..])
      case 't' => Reads(9 as char, t[2..])
      case 'u' => ReadUnicode(t[2..])
      case _ => Fails
  }

  /** A string from after its opening quote through its closing quote. */
  function ReadString(t: string): (r: Read<string>)
    ensures r.Reads? ==> |r.rest| < |t|
  {
    if t == "" then Fails
    else if t[0] == '\"' then Reads("", t[1..])
    else
      match ReadChar(t)
      case Fails => Fails
      case Reads(c, rest) =>
        match ReadString(rest)
        case Fails => Fails
        case Reads(s, rest') => Reads([c] + s, rest')
  }

  // ------------------------------------------------------------------------------------------
  // Values
  // ------------------------------------------------------------------------------------------

  function NumberLength(t: string): (n: nat)
    ensures n <= |t| && forall i :: 0 <= i < n ==> NumberChar(t[i])
  {
    if t != "" && NumberChar(t[0]) then 1 + NumberLength(t[1..]) else 0
  }

  function ReadValue(text: string): (r: Read<Json>)
    ensures r.Reads? ==> |r.rest| < |text|
    decreases |text|, 0
  {
    var t := Skip(text);
    if t == "" then Fails
    else
      match t[0]
      case '\"' =>
        (match ReadString(t[1..])
         case Fails => Fails
         case Reads(s, rest) => Reads(Str(s), rest))
      case '[' =>
        (match ReadItems(t[1..], true)
         case Fails => Fails
         case Reads(items, rest) => Reads(Arr(items), rest))
      case '{' =>
        (match ReadMembers(t[1..], true)
         case Fails => Fails
         case Reads(members, rest) => Reads(Obj(members), rest))
      case c =>
        if "null" <= t then Reads(Null, t[4..])
        else if "true" <= t then Reads(Bool(true), t[4..])
        else if "false" <= t then Reads(Bool(false), t[5..])
        else if '0' <= c <= '9' || c == '-' then Reads(Number(t[..NumberLength(t)]), t[NumberLength(t)..])
        else Fails
  }

  /** What follows the opening bracket, or an item of the list. */
  function ReadItems(text: string, first: bool): (r: Read<seq<Json>>)
    ensures r.Reads? ==> |r.rest| < |text|
    decreases |text|, 1
  {
    var t := Skip(text);
    if t == "" then Fails
    else if t[0] == ']' then Reads([], t[1..])
    else if !first && t[0] != ',' then Fails
    else
      match ReadValue(if first then t else t[1..])
      case Fails => Fails
      case Reads(item, rest) =>
        match ReadItems(rest, false)
        case Fails => Fails
        case Reads(items, rest') => Reads([item] + items, rest')
  }

  /** What follows the opening brace, or a member of the object.  Of members with one name the last counts. */
  function ReadMembers(text: string, first: bool): (r: Read<map<string, Json>>)
    ensures r.Reads? ==> |r.rest| < |text|
    decreases |text|, 1
  {
    var t := Skip(text);
    if t == "" then Fails
    else if t[0] == '}' then Reads(map[], t[1..])
    else if !first && t[0] != ',' then Fails
    else
      var name := Skip(if first then t else t[1..]);
      if name == "" || name[0] != '\"' then Fails
      else
        match ReadString(name[1..])
        case Fails => Fails
        case Reads(k, afterName) =>
          var colon := Skip(afterName);
          if colon == "" || colon[0] != ':' then Fails
          else
            match ReadValue(colon[1..])
            case Fails => Fails
            case Reads(v, rest) =>
              match ReadMembers(rest, false)
              case Fails => Fails
              case Reads(members, rest') => Reads(map[k := v] + members, rest')
  }
}
