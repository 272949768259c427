/** The compile-time `image = Image(..)` spec: a hand-written JSON printer, and the options its reader gets back. */
module ImageSpec {
  import opened Wrappers
  import opened Json

  // ---- string escaping ----

  function HexDigit(d: nat): char
    requires d < 16
  {
    if d < 10 then '0' + d as char else 'a' + (d - 10) as char
  }

  function EscapeChar(c: char): string {
    if c == '"' then "\\\""
    else if c == '\\' then "\\\\"
    else if c == '\n' then "\\n"
    else if c == '\r' then "\\r"
    else if c == '\t' then "\\t"
    else if c == '\U{0008}' then "\\b"
    else if c == '\U{000c}' then "\\f"
    else if c < ' ' then "\\u00" + [HexDigit(c as nat / 16), HexDigit(c as nat % 16)]
    else [c]
  }

  function Escape(s: string): string {
    if s == [] then [] else EscapeChar(s[0]) + Escape(s[1..])
  }

  lemma EscapeStep(s: string, i: nat, out: string)
    requires i < |s|
    ensures out + Escape(s[i..]) == out + EscapeChar(s[i]) + Escape(s[i + 1..])
  {
    hide EscapeChar;
    assert s[i..][1..] == s[i + 1..];
    assert out + (EscapeChar(s[i]) + Escape(s[i + 1..])) == out + EscapeChar(s[i]) + Escape(s[i + 1..]);
  }

  /** `json_escape`: one pass, pushing each character's escape. */
  method JsonEscape(s: string) returns (out: string)
    ensures out == Escape(s)
  {
    out := "";
    for i := 0 to |s|
      invariant out + Escape(s[i..]) == Escape(s)
    {
      EscapeStep(s, i, out);
      ghost var before := out;
      if s[i] == '"' {
        out := out + "\\\"";
      } else if s[i] == '\\' {
        out := out + "\\\\";
      } else if s[i] == '\n' {
        out := out + "\\n";
      } else if s[i] == '\r' {
        out := out + "\\r";
      } else if s[i] == '\t' {
        out := out + "\\t";
      } else if s[i] == '\U{0008}' {
        out := out + "\\b";
      } else if s[i] == '\U{000c}' {
        out := out + "\\f";
      } else if s[i] < ' ' {
        out := out + ("\\u00" + [HexDigit(s[i] as nat / 16), HexDigit(s[i] as nat % 16)]);
      } else {
        out := out + [s[i]];
      }
      assert out == before + EscapeChar(s[i]);
    }
    assert out + [] == out;
  }

  lemma ReadEscapedChar(c: char, rest: string)
    ensures EscapeChar(c) != [] && EscapeChar(c)[0] != '"'
    ensures ReadChar(EscapeChar(c) + rest) == Some((c, rest))
  {
    var s := EscapeChar(c) + rest;
    if c < ' ' && |EscapeChar(c)| == 6 {
      assert s[2..][0] == '0' && s[2..][1] == '0';
      assert s[6..] == rest;
    } else if |EscapeChar(c)| == 2 {
      assert s[2..] == rest;
    } else {
      assert s[1..] == rest;
    }
  }

  /** Reading undoes escaping: the string read ends at the closing quote the printer wrote, whatever follows. */
  lemma {:induction false} EscapeRoundTrip(s: string, rest: string)
    ensures ReadString(Escape(s) + ['"'] + rest) == Some((s, rest))
  {
    hide EscapeChar, ReadChar;
    var text := Escape(s) + ['"'] + rest;
    if s == [] {
      assert text[0] == '"' && text[1..] == rest;
    } else {
      var tail := Escape(s[1..]) + ['"'] + rest;
      assert text == EscapeChar(s[0]) + tail;
      ReadEscapedChar(s[0], tail);
      EscapeRoundTrip(s[1..], rest);
      assert [s[0]] + s[1..] == s;
    }
  }

  /** The escaped text holds no control character, and a quote only right after a backslash. */
  lemma {:induction false} EscapeIsClean(s: string, i: nat)
    requires i < |Escape(s)|
    ensures Escape(s)[i] >= ' '
    ensures Escape(s)[i] == '"' ==> i > 0 && Escape(s)[i - 1] == '\\'
  {
    var n := |EscapeChar(s[0])|;
    if i >= n {
      EscapeIsClean(s[1..], i - n);
    }
  }

  // ---- the spec ----

  /** The arguments of an `Image(..)` call, already known to be literals of the right kind. */
  datatype Component =
    | BaseArg(tag: string)
    | InstallRustArg(flag: bool)
    | AptArg(items: seq<string>)
    | PipArg(items: seq<string>)
    | RunArg(items: seq<string>)

  /** What the call declares, and what the facade reads back. */
  datatype Image = Image(base: Option<string>, installRust: Option<bool>, apt: seq<string>, pip: seq<string>, run: seq<string>)

  const DEFAULT := Image(None, None, [], [], [])

  /** A repeated component overrides the earlier one. */
  function Declared(args: seq<Component>): Image {
    if args == [] then DEFAULT
    else
      var image := Declared(args[..|args| - 1]);
      match args[|args| - 1]
      case BaseArg(tag) => image.(base := Some(tag))
      case InstallRustArg(flag) => image.(installRust := Some(flag))
      case AptArg(items) => image.(apt := items)
      case PipArg(items) => image.(pip := items)
      case RunArg(items) => image.(run := items)
  }

  predicate SameKind(a: Component, b: Component) {
    || (a.BaseArg? && b.BaseArg?) || (a.InstallRustArg? && b.InstallRustArg?)
    || (a.AptArg? && b.AptArg?) || (a.PipArg? && b.PipArg?) || (a.RunArg? && b.RunArg?)
  }

  /** The component at `i` is what the image holds of its kind. */
  predicate Holds(image: Image, c: Component) {
    match c
    case BaseArg(tag) => image.base == Some(tag)
    case InstallRustArg(flag) => image.installRust == Some(flag)
    case AptArg(items) => image.apt == items
    case PipArg(items) => image.pip == items
    case RunArg(items) => image.run == items
  }

  /** Of each kind the last component in the call counts, wherever those of other kinds stand. */
  lemma {:induction false} LastOfKindCounts(args: seq<Component>, i: nat)
    requires i < |args| && forall j :: i < j < |args| ==> !SameKind(args[j], args[i])
    ensures Holds(Declared(args), args[i])
  {
    if i < |args| - 1 {
      LastOfKindCounts(args[..|args| - 1], i);
    }
  }

  /** A kind the call does not mention is not set. */
  lemma {:induction false} UnmentionedIsUnset(args: seq<Component>)
    ensures var image := Declared(args);
      && ((forall i :: 0 <= i < |args| ==> !args[i].BaseArg?) ==> image.base == None)
      && ((forall i :: 0 <= i < |args| ==> !args[i].InstallRustArg?) ==> image.installRust == None)
      && ((forall i :: 0 <= i < |args| ==> !args[i].AptArg?) ==> image.apt == [])
      && ((forall i :: 0 <= i < |args| ==> !args[i].PipArg?) ==> image.pip == [])
      && ((forall i :: 0 <= i < |args| ==> !args[i].RunArg?) ==> image.run == [])
  {
    if args != [] {
      var init := args[..|args| - 1];
      UnmentionedIsUnset(init);
      assert forall i :: 0 <= i < |init| ==> init[i] == args[i];
    }
  }

  function Quote(escaped: string): string { ['"'] + escaped + ['"'] }

  function Quoted(s: string): string { Quote(Escape(s)) }

  function Join(parts: seq<string>): string {
    if parts == [] then "" else if |parts| == 1 then parts[0] else parts[0] + "," + Join(parts[1..])
  }

  function QuotedAll(items: seq<string>): seq<string> { seq(|items|, i requires 0 <= i < |items| => Quoted(items[i])) }

  function ListText(items: seq<string>): string { "[" + Join(QuotedAll(items)) + "]" }

  method JsonArr(items: seq<string>) returns (out: string)
    ensures out == ListText(items)
  {
    var quoted: seq<string> := [];
    for i := 0 to |items|
      invariant quoted == QuotedAll(items)[..i]
    {
      var escaped := JsonEscape(items[i]);
      quoted := quoted + [Quote(escaped)];
    }
    assert QuotedAll(items)[..|items|] == QuotedAll(items);
    out := "[" + Join(quoted) + "]";
  }

  datatype Value = Text(s: string) | Flag(b: bool) | List(items: seq<string>)

  type Field = (string, Value)

  /** The members of the printed object: only what was set, and never an empty list. */
  function Fields(image: Image): seq<Field> {
    BaseField(image) + FlagField(image) + ListField("apt", image.apt) + ListField("pip", image.pip) + ListField("run", image.run)
  }

  function BaseField(image: Image): seq<Field> {
    if image.base.Some? then [("base", Text(image.base.value))] else []
  }

  function FlagField(image: Image): seq<Field> {
    if image.installRust.Some? then [("install_rust", Flag(image.installRust.value))] else []
  }

  function ListField(name: string, items: seq<string>): seq<Field> {
    if items == [] then [] else [(name, List(items))]
  }

  function ValueText(v: Value): string {
    match v
    case Text(s) => Quoted(s)
    case Flag(b) => if b then "true" else "false"
    case List(items) => ListText(items)
  }

  function Member(f: Field): string { "\"" + f.0 + "\":" + ValueText(f.1) }

  function Members(fields: seq<Field>): seq<string> { seq(|fields|, i requires 0 <= i < |fields| => Member(fields[i])) }

  function SpecText(image: Image): string { "{" + Join(Members(Fields(image))) + "}" }

  /** Pushing a field's text, or nothing when it is not set, keeps the parts the text of the fields. */
  lemma MembersStep(fields: seq<Field>, present: bool, name: string, v: Value)
    requires name in ["base", "install_rust", "apt", "pip", "run"]
    ensures Members(fields + (if present then [(name, v)] else []))
         == Members(fields) + (if present then ["\"" + name + "\":" + ValueText(v)] else [])
    ensures name == "base" ==> "\"" + name + "\":" == "\"base\":"
    ensures name == "install_rust" ==> "\"" + name + "\":" == "\"install_rust\":"
    ensures name == "apt" ==> "\"" + name + "\":" == "\"apt\":"
    ensures name == "pip" ==> "\"" + name + "\":" == "\"pip\":"
    ensures name == "run" ==> "\"" + name + "\":" == "\"run\":"
  {
    assert fields + [] == fields;
  }

  /** `parse_image_to_spec`: collect the components, then print the parts that were set. */
  method ParseImageToSpec(args: seq<Component>) returns (text: string)
    ensures text == SpecText(Declared(args))
  {
    var base: Option<string> := None;
    var installRust: Option<bool> := None;
    var apt, pip, run := [], [], [];
    for i := 0 to |args|
      invariant Image(base, installRust, apt, pip, run) == Declared(args[..i])
    {
      assert args[..i + 1][..i] == args[..i];
      match args[i]
      case BaseArg(tag) => base := Some(tag);
      case InstallRustArg(flag) => installRust := Some(flag);
      case AptArg(items) => apt := items;
      case PipArg(items) => pip := items;
      case RunArg(items) => run := items;
    }
    assert args[..|args|] == args;
    text := PrintSpec(Declared(args));
  }

  /** The printing half: the parts are pushed in a fixed order and joined. */
  method PrintSpec(image: Image) returns (text: string)
    ensures text == SpecText(image)
  {
    hide Members, Escape, Quoted, ListText, Member;
    var parts: seq<string> := [];
    NoMembers();
    if image.base.Some? {
      var escaped := JsonEscape(image.base.value);
      parts := parts + ["\"base\":" + Quote(escaped)];
      QuotedText(image.base.value);
    }
    ghost var fields := BaseField(image);
    MembersStep([], image.base.Some?, "base", if image.base.Some? then Text(image.base.value) else Text(""));
    assert [] + fields == fields;
    assert parts == Members(fields);
    if image.installRust.Some? {
      parts := parts + ["\"install_rust\":" + (if image.installRust.value then "true" else "false")];
    }
    MembersStep(fields, image.installRust.Some?, "install_rust", Flag(image.installRust == Some(true)));
    fields := fields + FlagField(image);
    assert parts == Members(fields);
    if image.apt != [] {
      var list := JsonArr(image.apt);
      parts := parts + ["\"apt\":" + list];
    }
    MembersStep(fields, image.apt != [], "apt", List(image.apt));
    fields := fields + ListField("apt", image.apt);
    assert parts == Members(fields);
    if image.pip != [] {
      var list := JsonArr(image.pip);
      parts := parts + ["\"pip\":" + list];
    }
    MembersStep(fields, image.pip != [], "pip", List(image.pip));
    fields := fields + ListField("pip", image.pip);
    assert parts == Members(fields);
    if image.run != [] {
      var list := JsonArr(image.run);
      parts := parts + ["\"run\":" + list];
    }
    MembersStep(fields, image.run != [], "run", List(image.run));
    assert parts == Members(Fields(image));
    text := "{" + Join(parts) + "}";
  }

  lemma NoMembers()
    ensures Members([]) == []
  {}

  lemma QuotedText(s: string)
    ensures Quote(Escape(s)) == Quoted(s)
  {}

  // ---- reading it back ----

  function ToJson(v: Value): Json {
    match v
    case Text(s) => String(s)
    case Flag(b) => Bool(b)
    case List(items) => Array(Strings(items))
  }

  function Strings(items: seq<string>): seq<Json> { seq(|items|, i requires 0 <= i < |items| => String(items[i])) }

  function ToMembers(fields: seq<Field>): seq<(string, Json)> {
    seq(|fields|, i requires 0 <= i < |fields| => (fields[i].0, ToJson(fields[i].1)))
  }

  lemma ReadQuoted(s: string, rest: string)
    ensures ReadValue(Quoted(s) + rest) == Some((String(s), rest))
    ensures SkipSpace(Quoted(s) + rest) == Quoted(s) + rest && ReadString((Quoted(s) + rest)[1..]) == Some((s, rest))
  {
    hide Escape, ReadString;
    var text := Quoted(s) + rest;
    assert text[0] == '"' && text[1..] == Escape(s) + ['"'] + rest;
    EscapeRoundTrip(s, rest);
  }

  lemma ReadOneItem(s: string, after: string)
    requires after != [] && !IsSpace(after[0])
    ensures ReadItems(Quoted(s) + after) ==
      if after[0] == ']' then Some(([String(s)], after[1..]))
      else if after[0] != ',' then None
      else if ReadItems(after[1..]).None? then None
      else Some(([String(s)] + ReadItems(after[1..]).value.0, ReadItems(after[1..]).value.1))
  {
    hide Quoted, ReadValue;
    ReadQuoted(s, after);
  }

  lemma {:induction false} ReadList(items: seq<string>, rest: string)
    requires items != []
    ensures ReadItems(Join(QuotedAll(items)) + ("]" + rest)) == Some((Strings(items), rest))
  {
    hide Quoted, ReadItems, Join;
    var first, more := items[0], items[1..];
    if more == [] {
      JoinOne(QuotedAll(items));
      ReadOneItem(first, "]" + rest);
      assert ("]" + rest)[1..] == rest && Strings(items) == [String(first)];
    } else {
      var tail := Join(QuotedAll(more)) + ("]" + rest);
      assert QuotedAll(items)[1..] == QuotedAll(more);
      JoinCons(QuotedAll(items));
      assert Join(QuotedAll(items)) + ("]" + rest) == Quoted(first) + ("," + tail);
      ReadOneItem(first, "," + tail);
      assert ("," + tail)[1..] == tail;
      ReadList(more, rest);
      assert [String(first)] + Strings(more) == Strings(items);
    }
  }

  lemma JoinOne(parts: seq<string>)
    requires |parts| == 1
    ensures Join(parts) == parts[0]
  {}

  lemma JoinCons(parts: seq<string>)
    requires |parts| > 1
    ensures Join(parts) == parts[0] + "," + Join(parts[1..])
  {}

  lemma ReadFlag(b: bool, rest: string)
    ensures ReadValue((if b then "true" else "false") + rest) == Some((Bool(b), rest))
  {
    hide ReadItems, ReadString, ReadMembers;
    if b {
      assert ("true" + rest)[4..] == rest && "true" <= "true" + rest;
    } else {
      assert ("false" + rest)[5..] == rest && "false" <= "false" + rest;
    }
  }

  lemma ReadListText(items: seq<string>, rest: string)
    ensures ReadValue(ListText(items) + rest) == Some((Array(Strings(items)), rest))
  {
    hide ReadItems, ReadString, ReadMembers, Join, QuotedAll;
    var text := ListText(items) + rest;
    assert text[1..] == Join(QuotedAll(items)) + ("]" + rest);
    if items == [] {
      NoItems();
      assert text[1..] == "]" + rest && text[1..][1..] == rest;
    } else {
      ReadList(items, rest);
      StartsWithQuote(items, "]" + rest);
    }
  }

  lemma ReadValueText(v: Value, rest: string)
    ensures ReadValue(ValueText(v) + rest) == Some((ToJson(v), rest))
  {
    hide Quoted, ListText, ReadValue;
    match v
    case Text(s) => ReadQuoted(s, rest);
    case Flag(b) => ReadFlag(b, rest);
    case List(items) => ReadListText(items, rest);
  }

  lemma NoItems()
    ensures Join(QuotedAll([])) == [] && Strings([]) == []
  {}

  lemma StartsWithQuote(items: seq<string>, rest: string)
    requires items != []
    ensures var text := Join(QuotedAll(items)) + rest; text[0] == '"' && SkipSpace(text) == text
  {
    assert QuotedAll(items)[0] == Quoted(items[0]);
  }

  /** A printed name needs no escaping, so what is between its quotes is what it escapes to. */
  predicate Plain(name: string) { Escape(name) == name }

  lemma {:induction false} ReadFields(fields: seq<Field>, rest: string)
    requires fields != [] && forall i :: 0 <= i < |fields| ==> Plain(fields[i].0)
    ensures ReadMembers(Join(Members(fields)) + ("}" + rest)) == Some((ToMembers(fields), rest))
  {
    hide Member, ReadMembers, Join, Escape;
    var f, more := fields[0], fields[1..];
    assert Plain(f.0);
    if more == [] {
      JoinOne(Members(fields));
      ReadOneMember(f, "}" + rest);
      assert ("}" + rest)[1..] == rest && ToMembers(fields) == [(f.0, ToJson(f.1))];
    } else {
      var tail := Join(Members(more)) + ("}" + rest);
      assert Members(fields)[1..] == Members(more);
      JoinCons(Members(fields));
      assert Join(Members(fields)) + ("}" + rest) == Member(f) + ("," + tail);
      ReadOneMember(f, "," + tail);
      assert ("," + tail)[1..] == tail;
      ReadFields(more, rest);
      assert [(f.0, ToJson(f.1))] + ToMembers(more) == ToMembers(fields);
    }
  }

  /** What `ReadMembers` makes of a first member followed by `after`. */
  function Continue(first: (string, Json), after: string): Option<(seq<(string, Json)>, string)>
    requires after != []
  {
    if after[0] == '}' then Some(([first], after[1..]))
    else if after[0] != ',' then None
    else if ReadMembers(after[1..]).None? then None
    else Some(([first] + ReadMembers(after[1..]).value.0, ReadMembers(after[1..]).value.1))
  }

  lemma ReadMember(text: string, name: string, value: string, v: Json, after: string)
    requires text != [] && text[0] == '"' && ReadString(text[1..]) == Some((name, ":" + value))
    requires ReadValue(value) == Some((v, after)) && after != [] && !IsSpace(after[0])
    ensures ReadMembers(text) == Continue((name, v), after)
  {
    hide ReadString, ReadValue;
    assert (":" + value)[1..] == value;
  }

  lemma ReadOneMember(f: Field, after: string)
    requires Plain(f.0) && after != [] && !IsSpace(after[0])
    ensures ReadMembers(Member(f) + after) == Continue((f.0, ToJson(f.1)), after)
  {
    hide ReadValue, ReadString, ReadMembers, ValueText, Escape, Continue;
    var text := Member(f) + after;
    var value := ValueText(f.1) + after;
    assert text == Quoted(f.0) + (":" + value);
    ReadQuoted(f.0, ":" + value);
    ReadValueText(f.1, after);
    ReadMember(text, f.0, value, ToJson(f.1), after);
  }

  /** Its members by name: each is there when it was set, a list when it is not empty. */
  lemma MembersByName(image: Image)
    ensures ToMembers(Fields(image)) ==
      (if image.base.Some? then [("base", String(image.base.value))] else [])
      + (if image.installRust.Some? then [("install_rust", Bool(image.installRust.value))] else [])
      + (if image.apt != [] then [("apt", Array(Strings(image.apt)))] else [])
      + (if image.pip != [] then [("pip", Array(Strings(image.pip)))] else [])
      + (if image.run != [] then [("run", Array(Strings(image.run)))] else [])
  {
    OneMember("base", Text(if image.base.Some? then image.base.value else ""));
    OneMember("install_rust", Flag(image.installRust == Some(true)));
    OneMember("apt", List(image.apt));
    OneMember("pip", List(image.pip));
    OneMember("run", List(image.run));
    hide ToMembers, Strings;
    FiveMembers(BaseField(image), FlagField(image), ListField("apt", image.apt), ListField("pip", image.pip), ListField("run", image.run));
  }

  lemma OneMember(name: string, v: Value)
    ensures ToMembers([(name, v)]) == [(name, ToJson(v))] && ToMembers([]) == []
  {}

  lemma FiveMembers(a: seq<Field>, b: seq<Field>, c: seq<Field>, d: seq<Field>, e: seq<Field>)
    ensures ToMembers(a + b + c + d + e) == ToMembers(a) + ToMembers(b) + ToMembers(c) + ToMembers(d) + ToMembers(e)
  {
    MembersConcat(a, b);
    MembersConcat(a + b, c);
    MembersConcat(a + b + c, d);
    MembersConcat(a + b + c + d, e);
    hide ToMembers;
  }

  lemma MembersConcat(a: seq<Field>, b: seq<Field>)
    ensures ToMembers(a + b) == ToMembers(a) + ToMembers(b)
  {}

  /** The whole printed object is read back as its members. */
  lemma ReadSpecText(image: Image)
    ensures Read(SpecText(image)) == Some(Object(ToMembers(Fields(image))))
  {
    hide Join, Members, ReadMembers, ReadItems, ReadString, Fields;
    var fields := Fields(image);
    var text := SpecText(image);
    assert text[1..] == Join(Members(fields)) + "}";
    NamesArePlain(image);
    if fields == [] {
      NoFields();
      assert text == "{}" && text[1..] == "}" && text[1..][1..] == [];
    } else {
      ReadFields(fields, "");
      assert "}" + "" == "}";
      MembersStartWithQuote(fields);
    }
  }

  lemma NoFields()
    ensures Join(Members([])) == [] && ToMembers([]) == []
  {}

  lemma MembersStartWithQuote(fields: seq<Field>)
    requires fields != []
    ensures var text := Join(Members(fields)) + "}"; text[0] == '"' && SkipSpace(text) == text
  {
    assert Members(fields)[0] == Member(fields[0]);
  }

  lemma {:induction false} LettersArePlain(name: string)
    requires forall i :: 0 <= i < |name| ==> 'a' <= name[i] <= 'z' || name[i] == '_'
    ensures Plain(name)
  {
    if name != [] {
      LettersArePlain(name[1..]);
      assert [name[0]] + name[1..] == name;
    }
  }

  lemma NamesArePlain(image: Image)
    ensures forall i :: 0 <= i < |Fields(image)| ==> Plain(Fields(image)[i].0)
  {
    hide Plain;
    LettersArePlain("base");
    LettersArePlain("install_rust");
    LettersArePlain("apt");
    LettersArePlain("pip");
    LettersArePlain("run");
  }

  // ---- the options the facade deserializes ----

  datatype Lookup = Missing | Once(value: Json) | Repeated

  function Find(members: seq<(string, Json)>, name: string): Lookup {
    if members == [] then Missing
    else if members[0].0 != name then Find(members[1..], name)
    else if Find(members[1..], name) == Missing then Once(members[0].1)
    else Repeated
  }

  function AsBase(l: Lookup): Option<Option<string>> {
    match l
    case Missing => Some(None)
    case Once(Null) => Some(None)
    case Once(String(s)) => Some(Some(s))
    case _ => None
  }

  function AsFlag(l: Lookup): Option<Option<bool>> {
    match l
    case Missing => Some(None)
    case Once(Null) => Some(None)
    case Once(Bool(b)) => Some(Some(b))
    case _ => None
  }

  function AsStrings(items: seq<Json>): Option<seq<string>> {
    if items == [] then Some([])
    else if !items[0].String? || AsStrings(items[1..]).None? then None
    else Some([items[0].s] + AsStrings(items[1..]).value)
  }

  function AsList(l: Lookup): Option<seq<string>> {
    match l
    case Missing => Some([])
    case Once(Array(items)) => AsStrings(items)
    case _ => None
  }

  /** `parse_image_spec`: every field optional, unknown members ignored, a repeated or ill-typed field refused. */
  function ParseImageSpec(text: string): Option<Image> {
    match Read(text)
    case Some(Object(m)) =>
      var base, flag := AsBase(Find(m, "base")), AsFlag(Find(m, "install_rust"));
      var apt, pip, run := AsList(Find(m, "apt")), AsList(Find(m, "pip")), AsList(Find(m, "run"));
      if base.None? || flag.None? || apt.None? || pip.None? || run.None? then None
      else Some(Image(base.value, flag.value, apt.value, pip.value, run.value))
    case _ => None
  }

  lemma {:induction false} FindAppend(a: seq<(string, Json)>, b: seq<(string, Json)>, name: string)
    requires Find(b, name) == Missing || Find(a, name) == Missing
    ensures Find(a + b, name) == if Find(a, name) == Missing then Find(b, name) else Find(a, name)
  {
    if a == [] {
      assert a + b == b;
    } else {
      assert (a + b)[1..] == a[1..] + b;
      FindAppend(a[1..], b, name);
    }
  }

  lemma {:induction false} StringsRoundTrip(items: seq<string>)
    ensures AsStrings(Strings(items)) == Some(items)
  {
    if items == [] {
      assert Strings(items) == [];
    } else {
      StringsRoundTrip(items[1..]);
      assert Strings(items)[1..] == Strings(items[1..]);
      assert [items[0]] + items[1..] == items;
    }
  }

  /** A field is found under its own name and no other. */
  lemma FindSingle(name: string, v: Value, other: string)
    ensures Find(ToMembers([(name, v)]), other) == if other == name then Once(ToJson(v)) else Missing
    ensures Find([], other) == Missing
  {
    var m := ToMembers([(name, v)]);
    assert m[0] == (name, ToJson(v)) && m[1..] == [];
  }

  function Optional(present: bool, name: string, v: Value): seq<(string, Json)> {
    if present then ToMembers([(name, v)]) else []
  }

  lemma FindInFive(p: seq<bool>, names: seq<string>, vs: seq<Value>, k: nat)
    requires |p| == |names| == |vs| == 5 && k < 5
    requires forall i, j :: 0 <= i < j < 5 ==> names[i] != names[j]
    ensures Find(Optional(p[0], names[0], vs[0]) + Optional(p[1], names[1], vs[1]) + Optional(p[2], names[2], vs[2])
      + Optional(p[3], names[3], vs[3]) + Optional(p[4], names[4], vs[4]), names[k])
      == if p[k] then Once(ToJson(vs[k])) else Missing
  {
    hide Find, ToMembers, ToJson;
    var name := names[k];
    forall i | 0 <= i < 5
      ensures Find(Optional(p[i], names[i], vs[i]), name) == if p[i] && i == k then Once(ToJson(vs[i])) else Missing
    {
      FindSingle(names[i], vs[i], name);
    }
    var a, b, c := Optional(p[0], names[0], vs[0]), Optional(p[1], names[1], vs[1]), Optional(p[2], names[2], vs[2]);
    var d, e := Optional(p[3], names[3], vs[3]), Optional(p[4], names[4], vs[4]);
    hide Optional;
    FindAppend(a, b, name);
    FindAppend(a + b, c, name);
    FindAppend(a + b + c, d, name);
    FindAppend(a + b + c + d, e, name);
  }

  const NAMES: seq<string> := ["base", "install_rust", "apt", "pip", "run"]

  function Presence(image: Image): seq<bool> {
    [image.base.Some?, image.installRust.Some?, image.apt != [], image.pip != [], image.run != []]
  }

  function Values(image: Image): seq<Value> {
    [Text(if image.base.Some? then image.base.value else ""), Flag(image.installRust == Some(true)),
     List(image.apt), List(image.pip), List(image.run)]
  }

  lemma ToMembersAppend(a: seq<Field>, b: seq<Field>)
    ensures ToMembers(a + b) == ToMembers(a) + ToMembers(b)
  {}

  lemma FieldsAreOptional(image: Image)
    ensures var p, v := Presence(image), Values(image);
      ToMembers(Fields(image)) == Optional(p[0], NAMES[0], v[0]) + Optional(p[1], NAMES[1], v[1])
        + Optional(p[2], NAMES[2], v[2]) + Optional(p[3], NAMES[3], v[3]) + Optional(p[4], NAMES[4], v[4])
  {
    hide ToMembers;
    NoFields();
    var a, b := BaseField(image), FlagField(image);
    var c, d, e := ListField("apt", image.apt), ListField("pip", image.pip), ListField("run", image.run);
    ToMembersAppend(a, b);
    ToMembersAppend(a + b, c);
    ToMembersAppend(a + b + c, d);
    ToMembersAppend(a + b + c + d, e);
  }

  /** Whatever was declared is read back field by field, and what was omitted is its default. */
  lemma ImageRoundTrip(image: Image)
    ensures ParseImageSpec(SpecText(image)) == Some(image)
  {
    hide SpecText, Read, Find, Fields, Optional, ToMembers, Presence, Values, AsStrings;
    ReadSpecText(image);
    FieldsAreOptional(image);
    var p, v := Presence(image), Values(image);
    FoundFields(image);
    StringsRoundTrip(image.apt);
    StringsRoundTrip(image.pip);
    StringsRoundTrip(image.run);
  }

  lemma FoundFields(image: Image)
    ensures var m := ToMembers(Fields(image));
      && Find(m, "base") == (if image.base.Some? then Once(String(image.base.value)) else Missing)
      && Find(m, "install_rust") == (if image.installRust.Some? then Once(Bool(image.installRust.value)) else Missing)
      && Find(m, "apt") == (if image.apt != [] then Once(Array(Strings(image.apt))) else Missing)
      && Find(m, "pip") == (if image.pip != [] then Once(Array(Strings(image.pip))) else Missing)
      && Find(m, "run") == (if image.run != [] then Once(Array(Strings(image.run))) else Missing)
  {
    hide Find, Fields, Optional, ToMembers, Strings;
    FieldsAreOptional(image);
    FindInFive(Presence(image), NAMES, Values(image), 0);
    FindInFive(Presence(image), NAMES, Values(image), 1);
    FindInFive(Presence(image), NAMES, Values(image), 2);
    FindInFive(Presence(image), NAMES, Values(image), 3);
    FindInFive(Presence(image), NAMES, Values(image), 4);
  }
}
