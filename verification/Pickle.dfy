/**
 * The byte-exact pickle of a Dict key, and the small protocol-4 machine that reads it back.
 * A Dict is keyed by the raw bytes, so what matters is that reading undoes writing and that
 * two keys never share an encoding.
 */
module Pickle {
  import opened Wrappers
  import opened ByteStrings

  const PROTO: byte := 0x80
  const FRAME: byte := 0x95
  const SHORT_BINUNICODE: byte := 0x8c
  const BINUNICODE: byte := 0x58
  const BINUNICODE8: byte := 0x8d
  const MEMOIZE: byte := 0x94
  const STOP: byte := 0x2e

  const HIGHEST_PROTOCOL: byte := 5

  // ---- writing ----

  /** The three ways protocol 4 can announce a string, by the width of the length they carry. */
  datatype UnicodeForm = UnicodeForm(opcode: byte, width: nat)

  const SHORT := UnicodeForm(SHORT_BINUNICODE, 1)
  const LONG := UnicodeForm(BINUNICODE, 4)
  const WIDE := UnicodeForm(BINUNICODE8, 8)

  predicate IsForm(form: UnicodeForm) { form == SHORT || form == LONG || form == WIDE }

  function Body(form: UnicodeForm, key: Str): Bytes {
    [form.opcode] + Le(|key|, form.width) + key + [MEMOIZE] + [STOP]
  }

  function FormFor(length: nat): UnicodeForm {
    if length <= 0xff then SHORT else if length > 0xffff_ffff then WIDE else LONG
  }

  function StrKey(key: Str): Bytes {
    var body := Body(FormFor(|key|), key);
    [PROTO] + [4] + [FRAME] + Le(|body|, 8) + body
  }

  /** The string opcode, its length prefix and the text; a cast keeps only the low bits of the length. */
  method EncodeBody(key: Str) returns (body: Bytes)
    ensures body == Body(FormFor(|key|), key)
  {
    if |key| <= 0xff {
      body := [SHORT_BINUNICODE];
      body := body + [(|key| % 256) as byte];
      OneByte(|key|);
    } else if |key| > 0xffff_ffff {
      body := [BINUNICODE8];
      body := body + Le(|key| % TWO_TO_THE_64, 8);
    } else {
      body := [BINUNICODE];
      body := body + Le(|key| % TWO_TO_THE_32, 4);
    }
    assert body == [FormFor(|key|).opcode] + Le(|key|, FormFor(|key|).width);
    hide Le;
    body := body + key;
    body := body + [MEMOIZE];
    body := body + [STOP];
  }

  lemma BodyLength(form: UnicodeForm, key: Str)
    ensures |Body(form, key)| == 1 + form.width + |key| + 2
  {
    hide Le;
  }

  /** `encode_str_key`: the protocol header, one frame stating the body's length, then the body. */
  method EncodeStrKey(key: Str) returns (out: Bytes)
    ensures out == StrKey(key)
  {
    hide Body, Le;
    var body := EncodeBody(key);
    out := [PROTO];
    out := out + [4];
    out := out + [FRAME];
    LengthFits(key);
    out := out + Le(|body| % TWO_TO_THE_64, 8);
    out := out + body;
  }

  lemma LengthFits(key: Str)
    ensures var n := |Body(FormFor(|key|), key)|; n % TWO_TO_THE_64 == n
  {
    BodyLength(FormFor(|key|), key);
  }

  /** The layout byte for byte, for a key of any length: nothing in it depends on the text but the lengths. */
  lemma KeyLayout(key: Str)
    ensures var prefix: Bytes :=
              if |key| < 0x100 then [0x8c] + Le(|key|, 1)
              else if |key| < 0x1_0000_0000 then [0x58] + Le(|key|, 4)
              else [0x8d] + Le(|key|, 8);
      StrKey(key) == [0x80, 0x04, 0x95] + Le(|prefix| + |key| + 2, 8) + prefix + key + [0x94, 0x2e]
  {
    hide Le;
    BodyLength(FormFor(|key|), key);
  }

  lemma OneByte(n: nat)
    ensures Le(n, 1) == [(n % 256) as byte]
  {
    assert Le(n, 1) == [(n % 256) as byte] + Le(n / 256, 0);
  }

  // ---- reading ----

  /** An unpickler between opcodes. `frameEnd` is where the current frame stops. */
  datatype Machine = Machine(stack: seq<Bytes>, memo: seq<Bytes>, frameEnd: Option<nat>)

  datatype Loaded = Loaded(value: Bytes, next: nat, frameEnd: Option<nat>)

  /** A read of `b[pos..end]` is good when the input reaches that far and the read stays in the frame it starts in. */
  predicate Readable(b: Bytes, pos: nat, end: nat, m: Machine) {
    pos <= end <= |b| && (m.frameEnd.Some? && pos < m.frameEnd.value ==> end <= m.frameEnd.value)
  }

  /** Runs opcodes from `pos` up to STOP; `None` is an unpickling error. */
  function Load(b: Bytes, pos: nat, m: Machine): (r: Option<Loaded>)
    decreases |b| - pos
  {
    if pos >= |b| then None
    else if b[pos] == PROTO then
      if Readable(b, pos, pos + 2, m) && b[pos + 1] <= HIGHEST_PROTOCOL then Load(b, pos + 2, m) else None
    else if b[pos] == FRAME then
      if !Readable(b, pos, pos + 9, m) then None
      else
        var end := pos + 9 + FromLe(b[pos + 1..pos + 9]);
        if (m.frameEnd.Some? && pos + 9 < m.frameEnd.value) || end > |b| then None
        else Load(b, pos + 9, m.(frameEnd := Some(end)))
    else if b[pos] == SHORT_BINUNICODE then LoadUnicode(b, pos, 1, m)
    else if b[pos] == BINUNICODE then LoadUnicode(b, pos, 4, m)
    else if b[pos] == BINUNICODE8 then LoadUnicode(b, pos, 8, m)
    else if b[pos] == MEMOIZE then
      if m.stack == [] then None
      else Load(b, pos + 1, m.(memo := m.memo + [m.stack[|m.stack| - 1]]))
    else if b[pos] == STOP then
      if m.stack == [] then None else Some(Loaded(m.stack[|m.stack| - 1], pos + 1, m.frameEnd))
    else None
  }

  function LoadUnicode(b: Bytes, pos: nat, width: nat, m: Machine): (r: Option<Loaded>)
    requires pos < |b|
    decreases |b| - pos, 0
  {
    var start := pos + 1 + width;
    if !Readable(b, pos, start, m) then None
    else
      var end := start + FromLe(b[pos + 1..start]);
      if !Readable(b, pos, end, m) then None
      else Load(b, end, m.(stack := m.stack + [b[start..end]]))
  }

  // ---- what reading and writing are to each other ----

  lemma LoadTail(b: Bytes, pos: nat, m: Machine)
    requires pos + 1 < |b| && b[pos] == MEMOIZE && b[pos + 1] == STOP && m.stack != []
    ensures Load(b, pos, m) == Some(Loaded(m.stack[|m.stack| - 1], pos + 2, m.frameEnd))
  {
    var m' := m.(memo := m.memo + [m.stack[|m.stack| - 1]]);
    assert Load(b, pos, m) == Load(b, pos + 1, m');
    assert Load(b, pos + 1, m') == Some(Loaded(m.stack[|m.stack| - 1], pos + 2, m.frameEnd));
  }

  lemma BodyParts(form: UnicodeForm, key: Str)
    ensures var body := Body(form, key);
      && |body| == 1 + form.width + |key| + 2
      && body[0] == form.opcode
      && body[1..1 + form.width] == Le(|key|, form.width)
      && body[1 + form.width..1 + form.width + |key|] == key
      && body[|body| - 2] == MEMOIZE && body[|body| - 1] == STOP
  {}

  lemma ByteInPlace(b: Bytes, pos: nat, part: Bytes, i: nat)
    requires pos + |part| <= |b| && b[pos..pos + |part|] == part && i < |part|
    ensures b[pos + i] == part[i]
  {
    assert b[pos..pos + |part|][i] == b[pos + i];
  }

  lemma SliceInPlace(b: Bytes, pos: nat, part: Bytes, from: nat, to: nat)
    requires pos + |part| <= |b| && b[pos..pos + |part|] == part && from <= to <= |part|
    ensures b[pos + from..pos + to] == part[from..to]
  {
    SliceOfSlice(b, pos, pos + |part|, from, to);
  }

  lemma BodyInPlace(b: Bytes, pos: nat, form: UnicodeForm, key: Str)
    requires var end := pos + |Body(form, key)|; end <= |b| && b[pos..end] == Body(form, key)
    ensures var start := pos + 1 + form.width;
      var end := pos + |Body(form, key)|;
      && start + |key| == end - 2 && b[pos] == form.opcode
      && b[pos + 1..start] == Le(|key|, form.width) && b[start..start + |key|] == key
      && b[end - 2] == MEMOIZE && b[end - 1] == STOP
  {
    BodyParts(form, key);
    hide Body, Le;
    var body := Body(form, key);
    ByteInPlace(b, pos, body, 0);
    SliceInPlace(b, pos, body, 1, 1 + form.width);
    SliceInPlace(b, pos, body, 1 + form.width, 1 + form.width + |key|);
    ByteInPlace(b, pos, body, |body| - 2);
    ByteInPlace(b, pos, body, |body| - 1);
  }

  lemma LoadString(b: Bytes, pos: nat, form: UnicodeForm, key: Str, m: Machine)
    requires IsForm(form) && |key| < Pow256(form.width)
    requires var start := pos + 1 + form.width;
      && start + |key| <= |b| && b[pos] == form.opcode
      && b[pos + 1..start] == Le(|key|, form.width) && b[start..start + |key|] == key
    requires m.frameEnd.Some? && pos + 1 + form.width + |key| <= m.frameEnd.value
    ensures Load(b, pos, m) == Load(b, pos + 1 + form.width + |key|, m.(stack := m.stack + [key]))
  {
    LeRoundTrip(|key|, form.width);
    assert Load(b, pos, m) == LoadUnicode(b, pos, form.width, m);
  }

  /** A string body is read back whole when its frame reaches exactly to its end. */
  lemma LoadBody(b: Bytes, pos: nat, form: UnicodeForm, key: Str)
    requires IsForm(form) && |key| < Pow256(form.width)
    requires var end := pos + |Body(form, key)|; end <= |b| && b[pos..end] == Body(form, key)
    ensures var end := pos + |Body(form, key)|;
      Load(b, pos, Machine([], [], Some(end))) == Some(Loaded(key, end, Some(end)))
  {
    var end := pos + |Body(form, key)|;
    var m := Machine([], [], Some(end));
    assert b[end - 2] == MEMOIZE && b[end - 1] == STOP && Load(b, pos, m) == Load(b, end - 2, m.(stack := [key])) by {
      BodyInPlace(b, pos, form, key);
      LoadString(b, pos, form, key, m);
      assert [] + [key] == [key];
    }
    LoadTail(b, end - 2, m.(stack := [key]));
  }

  lemma HeaderParts(key: Str, rest: Bytes)
    ensures var body := Body(FormFor(|key|), key);
      var b := StrKey(key) + rest;
      && |StrKey(key)| == 11 + |body| && |b| == 11 + |body| + |rest|
      && b[0] == PROTO && b[1] == 4 && b[2] == FRAME
      && b[3..11] == Le(|body|, 8) && b[11..11 + |body|] == body
  {}

  /** Whatever follows a key's encoding, the machine yields the key and stops right after it, at the frame's own end. */
  lemma KeyRoundTrip(key: Str, rest: Bytes)
    ensures Load(StrKey(key) + rest, 0, Machine([], [], None))
         == Some(Loaded(key, |StrKey(key)|, Some(|StrKey(key)|)))
  {
    Widths();
    var form := FormFor(|key|);
    var body := Body(form, key);
    var b := StrKey(key) + rest;
    HeaderParts(key, rest);
    assert |body| < TWO_TO_THE_64;
    LeRoundTrip(|body|, 8);
    LoadBody(b, 11, form, key);
    assert Load(b, 2, Machine([], [], None)) == Load(b, 11, Machine([], [], Some(11 + |body|)));
    assert Load(b, 0, Machine([], [], None)) == Load(b, 2, Machine([], [], None));
  }

  /** No encoding is a prefix of another key's encoding. */
  lemma KeysArePrefixFree(k1: Str, k2: Str)
    requires StrKey(k1) <= StrKey(k2)
    ensures k1 == k2
  {
    var rest := StrKey(k2)[|StrKey(k1)|..];
    assert StrKey(k2) == StrKey(k1) + rest;
    KeyRoundTrip(k1, rest);
    KeyRoundTrip(k2, []);
    assert StrKey(k2) + [] == StrKey(k2);
  }

  /** Of the forms whose length field can hold the key's length, the one used makes the smallest pickle. */
  lemma ShortestFormIsUsed(key: Str, other: UnicodeForm)
    requires IsForm(other) && |key| < Pow256(other.width)
    ensures |key| < Pow256(FormFor(|key|).width)
    ensures |Body(FormFor(|key|), key)| <= |Body(other, key)|
  {
    Widths();
  }
}
