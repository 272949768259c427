/**
 * The typed Dict handle: string keys pickled to bytes over a byte-keyed store. The functions say what one typed
 * call does to the byte map, the class issues the raw calls, and the refinement says the whole is a plain map
 * from strings to values.
 */
module DictHandleSpec {
  import opened Wrappers
  import opened ByteStrings
  import opened Pickle

  /**
   * The value codec: `encode_value` may refuse a value, and `decode_value` reads bytes at a requested type and may
   * refuse them. Any `V` and any type tag `T` will do.
   */
  datatype Codec<!V, !T> = Codec(encode: V -> Result<Bytes, string>, decode: (T, Bytes) -> Result<V, string>)

  /** What decoding an encoded value gives at each type; the codec keeps to it. */
  ghost predicate Faithful<V(!new), T(!new)>(codec: Codec<V, T>, view: (T, V) -> Result<V, string>) {
    forall v, t :: codec.encode(v).Ok? ==> codec.decode(t, codec.encode(v).value) == view(t, v)
  }

  datatype Op<V, T> =
    | Get(at: T, key: Str)
    | Put(key: Str, value: V)
    | PutIfAbsent(key: Str, value: V)
    | Pop(at: T, key: Str)
    | Contains(key: Str)
    | Clear

  datatype Answer<V> =
    | Absent
    | Found(value: V)
    | Done
    | Inserted(wasAbsent: bool)
    | Present(yes: bool)
    | CodecError(message: string)
    | NotFound

  /** `decode_opt`: absence passes through, a present value is decoded or is an error. */
  function DecodeOpt<V, T>(codec: Codec<V, T>, at: T, bytes: Option<Bytes>): Answer<V> {
    match bytes
    case None => Absent
    case Some(b) =>
      match codec.decode(at, b)
      case Ok(v) => Found(v)
      case Err(e) => CodecError(e)
  }

  function At(d: map<Bytes, Bytes>, key: Bytes): Option<Bytes> { if key in d then Some(d[key]) else None }

  /** One typed call on the byte map behind the handle. */
  function Call<V, T>(codec: Codec<V, T>, d: map<Bytes, Bytes>, op: Op<V, T>): (map<Bytes, Bytes>, Answer<V>) {
    match op
    case Get(at, key) => (d, DecodeOpt(codec, at, At(d, StrKey(key))))
    case Put(key, value) =>
      (match codec.encode(value)
       case Ok(b) => (d[StrKey(key) := b], Done)
       case Err(e) => (d, CodecError(e)))
    case PutIfAbsent(key, value) =>
      (match codec.encode(value)
       case Ok(b) => if StrKey(key) in d then (d, Inserted(false)) else (d[StrKey(key) := b], Inserted(true))
       case Err(e) => (d, CodecError(e)))
    case Pop(at, key) => (d - {StrKey(key)}, DecodeOpt(codec, at, At(d, StrKey(key))))
    case Contains(key) => (d, Present(StrKey(key) in d))
    case Clear => (map[], Done)
  }

  /** On a deleted dict a value that cannot be encoded is still refused first; every other call is not found. */
  function Stale<V, T>(codec: Codec<V, T>, op: Op<V, T>): Answer<V> {
    if (op.Put? || op.PutIfAbsent?) && codec.encode(op.value).Err? then CodecError(codec.encode(op.value).error)
    else NotFound
  }

  function Calls<V, T>(codec: Codec<V, T>, d: map<Bytes, Bytes>, ops: seq<Op<V, T>>): (map<Bytes, Bytes>, seq<Answer<V>>)
    decreases |ops|
  {
    if ops == [] then (d, [])
    else
      var (d1, answer) := Call(codec, d, ops[0]);
      var (d2, answers) := Calls(codec, d1, ops[1..]);
      (d2, [answer] + answers)
  }

  // ---- the plain map ----

  function Viewed<V, T>(view: (T, V) -> Result<V, string>, at: T, m: map<Str, V>, key: Str): Answer<V> {
    if key !in m then Absent
    else match view(at, m[key]) case Ok(v) => Found(v) case Err(e) => CodecError(e)
  }

  /** What a plain map answers; a value the codec refuses never gets in. */
  function PlainCall<V, T>(codec: Codec<V, T>, view: (T, V) -> Result<V, string>, m: map<Str, V>, op: Op<V, T>)
    : (map<Str, V>, Answer<V>)
  {
    match op
    case Get(at, key) => (m, Viewed(view, at, m, key))
    case Put(key, value) =>
      if codec.encode(value).Err? then (m, CodecError(codec.encode(value).error)) else (m[key := value], Done)
    case PutIfAbsent(key, value) =>
      if codec.encode(value).Err? then (m, CodecError(codec.encode(value).error))
      else if key in m then (m, Inserted(false)) else (m[key := value], Inserted(true))
    case Pop(at, key) => (m - {key}, Viewed(view, at, m, key))
    case Contains(key) => (m, Present(key in m))
    case Clear => (map[], Done)
  }

  function PlainCalls<V, T>(codec: Codec<V, T>, view: (T, V) -> Result<V, string>, m: map<Str, V>, ops: seq<Op<V, T>>)
    : (map<Str, V>, seq<Answer<V>>)
    decreases |ops|
  {
    if ops == [] then (m, [])
    else
      var (m1, answer) := PlainCall(codec, view, m, ops[0]);
      var (m2, answers) := PlainCalls(codec, view, m1, ops[1..]);
      (m2, [answer] + answers)
  }

  // ---- the refinement ----

  /** The byte map stores each plain entry under its pickled key; keys no string pickles to are left alone. */
  ghost predicate Represents<V, T>(codec: Codec<V, T>, d: map<Bytes, Bytes>, m: map<Str, V>) {
    && (forall key: Str :: key in m <==> StrKey(key) in d)
    && (forall key: Str :: key in m ==> codec.encode(m[key]) == Ok(d[StrKey(key)]))
  }

  lemma StrKeyInjective(k1: Str, k2: Str)
    requires StrKey(k1) == StrKey(k2)
    ensures k1 == k2
  {
    KeysArePrefixFree(k1, k2);
  }

  lemma WriteRepresents<V, T>(codec: Codec<V, T>, d: map<Bytes, Bytes>, m: map<Str, V>, key: Str, value: V)
    requires Represents(codec, d, m) && codec.encode(value).Ok?
    ensures Represents(codec, d[StrKey(key) := codec.encode(value).value], m[key := value])
  {
    hide StrKey;
    forall k: Str ensures StrKey(k) == StrKey(key) ==> k == key {
      if StrKey(k) == StrKey(key) {
        StrKeyInjective(k, key);
      }
    }
  }

  lemma RemoveRepresents<V, T>(codec: Codec<V, T>, d: map<Bytes, Bytes>, m: map<Str, V>, key: Str)
    requires Represents(codec, d, m)
    ensures Represents(codec, d - {StrKey(key)}, m - {key})
  {
    hide StrKey;
    forall k: Str ensures StrKey(k) == StrKey(key) ==> k == key {
      if StrKey(k) == StrKey(key) {
        StrKeyInjective(k, key);
      }
    }
  }

  /** One call answers as the plain map does and leaves the two related. */
  lemma CallRefines<V(!new), T(!new)>(codec: Codec<V, T>, view: (T, V) -> Result<V, string>,
      d: map<Bytes, Bytes>, m: map<Str, V>, op: Op<V, T>)
    requires Faithful(codec, view) && Represents(codec, d, m)
    ensures Represents(codec, Call(codec, d, op).0, PlainCall(codec, view, m, op).0)
    ensures Call(codec, d, op).1 == PlainCall(codec, view, m, op).1
  {
    hide StrKey;
    match op
    case Get(at, key) =>
    case Put(key, value) =>
      if codec.encode(value).Ok? {
        WriteRepresents(codec, d, m, key, value);
      }
    case PutIfAbsent(key, value) =>
      if codec.encode(value).Ok? {
        WriteRepresents(codec, d, m, key, value);
      }
    case Pop(at, key) => RemoveRepresents(codec, d, m, key);
    case Contains(key) =>
    case Clear =>
  }

  /** Any run of typed calls over pickled keys answers exactly as a plain map from strings to values. */
  lemma {:induction false} DictRefinesMap<V(!new), T(!new)>(codec: Codec<V, T>, view: (T, V) -> Result<V, string>,
      d: map<Bytes, Bytes>, m: map<Str, V>, ops: seq<Op<V, T>>)
    requires Faithful(codec, view) && Represents(codec, d, m)
    ensures Represents(codec, Calls(codec, d, ops).0, PlainCalls(codec, view, m, ops).0)
    ensures Calls(codec, d, ops).1 == PlainCalls(codec, view, m, ops).1
    decreases |ops|
  {
    hide StrKey, Represents, Faithful, Call, PlainCall;
    if ops != [] {
      CallRefines(codec, view, d, m, ops[0]);
      DictRefinesMap(codec, view, Call(codec, d, ops[0]).0, PlainCall(codec, view, m, ops[0]).0, ops[1..]);
    }
  }

  function Read<V, T>(codec: Codec<V, T>, at: T, bytes: Bytes): Answer<V> {
    match codec.decode(at, bytes) case Ok(v) => Found(v) case Err(e) => CodecError(e)
  }

  /**
   * Every call told by what gets are answered around it, at any key and type: a write is read back under its own key
   * only, a put-if-absent writes where a get finds nothing and says so, a pop answers as the get before it, and so on.
   */
  lemma CallsByGets<V, T>(codec: Codec<V, T>, d: map<Bytes, Bytes>, op: Op<V, T>, at: T, key: Str)
    ensures var (d', answer) := Call(codec, d, op);
      var was, now := Call(codec, d, Get(at, key)).1, Call(codec, d', Get(at, key)).1;
      match op
      case Get(_, _) => d' == d
      case Put(k, value) =>
        (match codec.encode(value)
         case Ok(b) => answer == Done && now == (if k == key then Read(codec, at, b) else was)
         case Err(e) => answer == CodecError(e) && d' == d)
      case PutIfAbsent(k, value) =>
        var absent := Call(codec, d, Get(at, k)).1 == Absent;
        (match codec.encode(value)
         case Ok(b) => answer == Inserted(absent) && now == (if k == key && absent then Read(codec, at, b) else was)
         case Err(e) => answer == CodecError(e) && d' == d)
      case Pop(t, k) => answer == Call(codec, d, Get(t, k)).1 && now == (if k == key then Absent else was)
      case Contains(k) => answer == Present(Call(codec, d, Get(at, k)).1 != Absent) && d' == d
      case Clear => answer == Done && now == Absent
  {
    hide StrKey;
    if op.Put? || op.PutIfAbsent? || op.Pop? {
      if StrKey(op.key) == StrKey(key) {
        StrKeyInjective(op.key, key);
      }
    }
  }

  /** On a deleted dict: a value that cannot be encoded is refused, and everything else is not found. */
  lemma StaleMeans<V, T>(codec: Codec<V, T>, at: T, key: Str, value: V)
    ensures Stale(codec, Get(at, key)) == Stale(codec, Pop(at, key)) == Stale(codec, Contains(key)) == NotFound
    ensures Stale<V, T>(codec, Clear) == NotFound
    ensures match codec.encode(value)
      case Ok(_) => Stale(codec, Put(key, value)) == Stale(codec, PutIfAbsent(key, value)) == NotFound
      case Err(e) => Stale(codec, Put(key, value)) == Stale(codec, PutIfAbsent(key, value)) == CodecError(e)
  {}

  /** A present value is never reported absent, and a `pop` that cannot decode it has removed it all the same. */
  lemma PresentIsNeverAbsent<V, T>(codec: Codec<V, T>, d: map<Bytes, Bytes>, at: T, key: Str)
    ensures (Call(codec, d, Get(at, key)).1 == Absent) <==> StrKey(key) !in d
    ensures (Call(codec, d, Pop(at, key)).1 == Absent) <==> StrKey(key) !in d
    ensures StrKey(key) in d && codec.decode(at, d[StrKey(key)]).Err? ==>
      && Call(codec, d, Get(at, key)) == (d, CodecError(codec.decode(at, d[StrKey(key)]).error))
      && Call(codec, d, Pop(at, key)) == (d - {StrKey(key)}, CodecError(codec.decode(at, d[StrKey(key)]).error))
  {
    hide StrKey;
  }
}

module DictHandles {
  import opened Wrappers
  import opened ByteStrings
  import opened Pickle
  import opened ObjectStoreSpec
  import opened ObjectStores
  import opened DictHandleSpec

  /** A handle on one dict of the store its client talks to; handles on the same dict share the store. */
  class Dict<!V(==), !T> {
    const client: ObjectStore
    const dictId: string
    const codec: Codec<V, T>

    constructor (client: ObjectStore, dictId: string, codec: Codec<V, T>)
      ensures this.client == client && this.dictId == dictId && this.codec == codec
    {
      this.client, this.dictId, this.codec := client, dictId, codec;
    }

    /** The typed calls: pickle the key, issue the raw call, decode what comes back. */
    method Perform(op: Op<V, T>) returns (answer: Answer<V>)
      modifies client
      ensures dictId !in old(client.dicts) ==> client.dicts == old(client.dicts) && answer == Stale(codec, op)
      ensures dictId in old(client.dicts) ==>
        && client.dicts == old(client.dicts)[dictId := Call(codec, old(client.dicts)[dictId], op).0]
        && answer == Call(codec, old(client.dicts)[dictId], op).1
    {
      match op
      case Get(at, key) =>
        var k := EncodeStrKey(key);
        var raw := client.DictGet(dictId, k);
        answer := if raw.Err? then NotFound else DecodeOpt(codec, at, raw.value);
      case Put(key, value) => answer := Write(key, value, false);
      case PutIfAbsent(key, value) => answer := Write(key, value, true);
      case Pop(at, key) =>
        var k := EncodeStrKey(key);
        var raw := client.DictPop(dictId, k);
        answer := if raw.Err? then NotFound else DecodeOpt(codec, at, raw.value);
      case Contains(key) =>
        var k := EncodeStrKey(key);
        var raw := client.DictContains(dictId, k);
        answer := if raw.Err? then NotFound else Present(raw.value);
      case Clear =>
        var raw := client.DictClear(dictId);
        answer := if raw.Err? then NotFound else Done;
    }

    /** `put` and `put_if_absent`: one entry; the value is encoded before anything is sent. */
    method Write(key: Str, value: V, ifNotExists: bool) returns (answer: Answer<V>)
      modifies client`dicts
      ensures var op := if ifNotExists then PutIfAbsent(key, value) else Put(key, value);
        && (dictId !in old(client.dicts) ==> client.dicts == old(client.dicts) && answer == Stale(codec, op))
        && (dictId in old(client.dicts) ==>
              && client.dicts == old(client.dicts)[dictId := Call(codec, old(client.dicts)[dictId], op).0]
              && answer == Call(codec, old(client.dicts)[dictId], op).1)
    {
      var k := EncodeStrKey(key);
      match codec.encode(value)
      case Err(e) => answer := CodecError(e);
      case Ok(b) =>
        var raw := client.DictUpdate(dictId, [(k, b)], ifNotExists);
        if dictId in old(client.dicts) {
          OneEntry(old(client.dicts)[dictId], k, b, ifNotExists);
        }
        answer := if raw.Err? then NotFound else if ifNotExists then Inserted(raw.value) else Done;
    }
  }

  lemma OneEntry(d: map<Bytes, Bytes>, key: Bytes, value: Bytes, ifNotExists: bool)
    ensures BatchUpdate(d, [(key, value)], ifNotExists)
         == (if key in d && ifNotExists then d else d[key := value], key !in d)
  {
    assert [(key, value)][..0] == [];
    assert BatchUpdate(d, [], ifNotExists) == (d, true);
  }
}
