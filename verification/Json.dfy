/**
 * A reader for JSON text without numbers: section 4 (objects), section 5 (arrays), section 7 (strings) and the
 * literals of section 3 of RFC 8259, with the white space of section 2.
 */
module Json {
  import opened Wrappers

  datatype Json = Null | Bool(b: bool) | String(s: string) | Array(items: seq<Json>) | Object(members: seq<(string, Json)>)

  predicate IsSpace(c: char) { c == ' ' || c == '\t' || c == '\n' || c == '\r' }

  function SkipSpace(s: string): (r: string)
    ensures |r| <= |s|
    ensures s != [] && !IsSpace(s[0]) ==> r == s
  {
    if s != [] && IsSpace(s[0]) then SkipSpace(s[1..]) else s
  }

  function HexValue(c: char): Option<nat> {
    if '0' <= c <= '9' then Some((c - '0') as nat)
    else if 'a' <= c <= 'f' then Some((c - 'a') as nat + 10)
    else if 'A' <= c <= 'F' then Some((c - 'A') as nat + 10)
    else None
  }

  function Hex2(high: char, low: char): (r: Option<nat>)
    ensures r.Some? ==> r.value < 256
  {
    if HexValue(high).None? || HexValue(low).None? then None else Some(HexValue(high).value * 16 + HexValue(low).value)
  }

  /** The four hex digits of a `\u` escape. */
  function Hex4(s: string): (r: Option<nat>)
    ensures r.Some? ==> |s| >= 4 && r.value < 0x1_0000
  {
    if |s| < 4 || Hex2(s[0], s[1]).None? || Hex2(s[2], s[3]).None? then None
    else Some(Hex2(s[0], s[1]).value * 256 + Hex2(s[2], s[3]).value)
  }

  /** The character after a backslash, for the one-letter escapes. */
  function ShortEscape(c: char): Option<char> {
    match c
    case '"' => Some('"')
    case '\\' => Some('\\')
    case '/' => Some('/')
    case 'b' => Some('\U{0008}')
    case 'f' => Some('\U{000c}')
    case 'n' => Some('\n')
    case 'r' => Some('\r')
    case 't' => Some('\t')
    case _ => None
  }

  /** One character of a string and the text after it; a surrogate escape needs its other half. */
  function ReadChar(s: string): (r: Option<(char, string)>)
    requires s != []
    ensures r.Some? ==> |r.value.1| < |s|
  {
    if s[0] != '\\' then
      if s[0] < ' ' then None else Some((s[0], s[1..]))
    else if |s| < 2 then None
    else if s[1] != 'u' then
      if ShortEscape(s[1]).None? then None else Some((ShortEscape(s[1]).value, s[2..]))
    else
      var unit := Hex4(s[2..]);
      if unit.None? then None
      else if unit.value < 0xD800 || unit.value > 0xDFFF then Some((unit.value as char, s[6..]))
      else if unit.value > 0xDBFF || |s| < 12 || s[6] != '\\' || s[7] != 'u' then None
      else
        var low := Hex4(s[8..]);
        if low.None? || low.value < 0xDC00 || low.value > 0xDFFF then None
        else Some(((0x1_0000 + (unit.value - 0xD800) * 0x400 + (low.value - 0xDC00)) as char, s[12..]))
  }

  /** The rest of a string after its opening quote. */
  function ReadString(s: string): (r: Option<(string, string)>)
    ensures r.Some? ==> |r.value.1| < |s|
  {
    if s == [] then None
    else if s[0] == '"' then Some(("", s[1..]))
    else
      var first := ReadChar(s);
      if first.None? then None
      else
        var more := ReadString(first.value.1);
        if more.None? then None else Some(([first.value.0] + more.value.0, more.value.1))
  }

  function ReadValue(s: string): (r: Option<(Json, string)>)
    ensures r.Some? ==> |r.value.1| < |s|
    decreases |s|, 1
  {
    var t := SkipSpace(s);
    if t == [] then None
    else if t[0] == '"' then
      var text := ReadString(t[1..]);
      if text.None? then None else Some((String(text.value.0), text.value.1))
    else if t[0] == '[' then
      var u := SkipSpace(t[1..]);
      if u != [] && u[0] == ']' then Some((Array([]), u[1..]))
      else
        var items := ReadItems(t[1..]);
        if items.None? then None else Some((Array(items.value.0), items.value.1))
    else if t[0] == '{' then
      var u := SkipSpace(t[1..]);
      if u != [] && u[0] == '}' then Some((Object([]), u[1..]))
      else
        var members := ReadMembers(t[1..]);
        if members.None? then None else Some((Object(members.value.0), members.value.1))
    else if "true" <= t then Some((Bool(true), t[4..]))
    else if "false" <= t then Some((Bool(false), t[5..]))
    else if "null" <= t then Some((Null, t[4..]))
    else None
  }

  /** One or more values up to the closing bracket. */
  function ReadItems(s: string): (r: Option<(seq<Json>, string)>)
    ensures r.Some? ==> |r.value.1| < |s|
    decreases |s|, 2
  {
    var first := ReadValue(s);
    if first.None? then None
    else
      var t := SkipSpace(first.value.1);
      if t == [] then None
      else if t[0] == ']' then Some(([first.value.0], t[1..]))
      else if t[0] != ',' then None
      else
        var more := ReadItems(t[1..]);
        if more.None? then None else Some(([first.value.0] + more.value.0, more.value.1))
  }

  /** One or more `"name": value` members up to the closing brace. */
  function ReadMembers(s: string): (r: Option<(seq<(string, Json)>, string)>)
    ensures r.Some? ==> |r.value.1| < |s|
    decreases |s|, 2
  {
    var t := SkipSpace(s);
    if t == [] || t[0] != '"' then None
    else
      var name := ReadString(t[1..]);
      if name.None? then None
      else
        var u := SkipSpace(name.value.1);
        if u == [] || u[0] != ':' then None
        else
          var value := ReadValue(u[1..]);
          if value.None? then None
          else
            var v := SkipSpace(value.value.1);
            if v == [] then None
            else if v[0] == '}' then Some(([(name.value.0, value.value.0)], v[1..]))
            else if v[0] != ',' then None
            else
              var more := ReadMembers(v[1..]);
              if more.None? then None else Some(([(name.value.0, value.value.0)] + more.value.0, more.value.1))
  }

  /** A whole text: one value and nothing but white space after it. */
  function Read(s: string): Option<Json> {
    var r := ReadValue(s);
    if r.None? || SkipSpace(r.value.1) != [] then None else Some(r.value.0)
  }
}
