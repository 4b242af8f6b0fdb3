/**
 * The primary-key codec (`PrimaryKeyCodec`): the index codec whose rows are
 * the table's canonical storage.  It turns a primary-key entry into a
 * (key bytes, value bytes) pair and back, decodes raw keys as an index,
 * and strips or rehydrates the primary-key fields of a message.
 */
module PrimaryKey {
  import opened OrmTypes
  import opened Proto
  import opened KeyCodecs
  import opened Entries

  /** The embedded key codec and the table's message type (`Type`). */
  datatype PrimaryKeyCodec = PrimaryKeyCodec(keyCodec: KeyCodec, messageType: MessageType)

  /** The index fields of a raw key and, when resolvable, the primary key they reference. */
  datatype IndexKey = IndexKey(indexFields: seq<Value>, primaryKey: Option<seq<Value>>)

  /** An encoded row. */
  datatype KV = KV(key: Bytes, value: Bytes)

  /**
   * Decodes key `k` as an index key; the value bytes play no part.  A prefix
   * key is not an error: its decoded fields come back with no primary key.
   * Any other decoding error is returned with no fields.  A full key whose
   * field count matches the key codec is its own primary key.
   */
  function DecodeIndexKey(p: PrimaryKeyCodec, k: Bytes, value: Bytes): (r: Result<IndexKey>)
    ensures r.Err? <==> p.keyCodec.decode(k).Corrupt?
    ensures r.Err? ==> r.error == p.keyCodec.decode(k).err
    ensures r.Ok? ==> r.value.indexFields == p.keyCodec.decode(k).values
    ensures r.Ok? ==>
      (r.value.primaryKey.Some? <==>
        p.keyCodec.decode(k).Full? && |r.value.indexFields| == |p.keyCodec.fieldDescriptors|)
    ensures r.Ok? && r.value.primaryKey.Some? ==> r.value.primaryKey.value == r.value.indexFields
  {
    match p.keyCodec.decode(k)
    case Prefix(values) => Ok(IndexKey(values, None))
    case Corrupt(err) => Err(err)
    case Full(values) =>
      var primaryKey := if |values| == |p.keyCodec.fieldDescriptors| then Some(values) else None;
      Ok(IndexKey(values, primaryKey))
  }

  /**
   * Decodes a stored row.  The key must decode completely: a prefix key
   * fails with `io.EOF` and a malformed one with its decoding error.  The
   * value is unmarshalled into a fresh message of the codec's type, whose
   * error, if any, is returned.
   */
  function DecodeKV(p: PrimaryKeyCodec, k: Bytes, v: Bytes): (r: Result<Entry>)
    ensures r.Ok? <==> p.keyCodec.decode(k).Full? && p.messageType.unmarshal(v).err.None?
    ensures p.keyCodec.decode(k).Prefix? ==> r == Err(EOF)
    ensures p.keyCodec.decode(k).Corrupt? ==> r == Err(p.keyCodec.decode(k).err)
    ensures p.keyCodec.decode(k).Full? && p.messageType.unmarshal(v).err.Some? ==>
      r == Err(p.messageType.unmarshal(v).err.value)
    ensures r.Ok? ==>
      && r.value.PrimaryKeyEntry?
      && r.value.key == p.keyCodec.decode(k).values
      && r.value.value == Msg(p.messageType.fullName, p.messageType.unmarshal(v).record)
  {
    match p.keyCodec.decode(k)
    case Prefix(_) => Err(EOF)
    case Corrupt(err) => Err(err)
    case Full(values) =>
      var u := p.messageType.unmarshal(v);
      if u.err.Some? then Err(u.err.value)
      else Ok(PrimaryKeyEntry(values, Msg(p.messageType.fullName, u.record)))
  }

  /**
   * Encodes a primary-key entry as a row.  Anything but a primary-key entry
   * of the codec's own message type is rejected with `BadDecodeEntry`.  The
   * key bytes encode the entry's key; the value bytes are the deterministic
   * marshal of the whole record, key fields included.  An error from either
   * step is returned with no bytes.
   */
  function EncodeKV(p: PrimaryKeyCodec, entry: Entry): (r: Result<KV>)
    ensures !entry.PrimaryKeyEntry? ==> r == Err(BadDecodeEntry)
    ensures entry.PrimaryKeyEntry? && entry.value.typeName != p.messageType.fullName ==>
      r == Err(BadDecodeEntry)
    ensures r.Ok? <==>
      && entry.PrimaryKeyEntry?
      && entry.value.typeName == p.messageType.fullName
      && p.keyCodec.encode(entry.key).Ok?
      && p.messageType.marshal(entry.value.fields).Ok?
    ensures r.Ok? ==>
      && r.value.key == p.keyCodec.encode(entry.key).value
      && r.value.value == p.messageType.marshal(entry.value.fields).value
    ensures entry.PrimaryKeyEntry? && entry.value.typeName == p.messageType.fullName
            && p.keyCodec.encode(entry.key).Err? ==>
      r == Err(p.keyCodec.encode(entry.key).error)
    ensures entry.PrimaryKeyEntry? && entry.value.typeName == p.messageType.fullName
            && p.keyCodec.encode(entry.key).Ok? && p.messageType.marshal(entry.value.fields).Err? ==>
      r == Err(p.messageType.marshal(entry.value.fields).error)
  {
    match entry
    case IndexKeyEntry(_, _) => Err(BadDecodeEntry)
    case PrimaryKeyEntry(key, msg) =>
      if msg.typeName != p.messageType.fullName then Err(BadDecodeEntry)
      else
        match p.keyCodec.encode(key)
        case Err(e) => Err(e)
        case Ok(bz) =>
          match p.messageType.marshal(msg.fields)
          case Err(e) => Err(e)
          case Ok(v) => Ok(KV(bz, v))
  }

  /**
   * Clears every primary-key field of `message` in place; every other field
   * keeps its value.
   */
  method ClearValues(p: PrimaryKeyCodec, message: Message)
    modifies message
    ensures message.fields == Cleared(old(message.fields), p.keyCodec.fieldDescriptors)
    ensures forall f :: f in p.keyCodec.fieldDescriptors ==> f !in message.fields
    ensures forall f :: f in old(message.fields) && f !in p.keyCodec.fieldDescriptors ==>
      f in message.fields && message.fields[f] == old(message.fields)[f]
  {
    var fs := p.keyCodec.fieldDescriptors;
    for i := 0 to |fs|
      invariant message.fields == Cleared(old(message.fields), fs[..i])
    {
      assert fs[..i + 1] == fs[..i] + [fs[i]];
      message.Clear(fs[i]);
    }
    assert fs[..|fs|] == fs;
  }

  /**
   * What `Unmarshal` leaves in a message of type `t` and what it returns:
   * on a parse error, the parser's output and the error, with no key field
   * set; otherwise the parsed record with its key fields set from `key`.
   */
  function Rehydrated(p: PrimaryKeyCodec, t: MessageType, key: seq<Value>, value: Bytes): (u: Unmarshalled)
    requires |key| >= |p.keyCodec.fieldDescriptors| || t.unmarshal(value).err.Some?
    ensures u.err == t.unmarshal(value).err
    ensures u.err.Some? ==> u.record == t.unmarshal(value).record
    ensures u.err.None? ==>
      var fs := p.keyCodec.fieldDescriptors;
      && u.record.Keys == t.unmarshal(value).record.Keys + (set f | f in fs)
      && (forall i :: 0 <= i < |fs| && fs[i] !in fs[i + 1..] ==> u.record[fs[i]] == key[i])
      && (forall f :: f in t.unmarshal(value).record && f !in fs ==>
            u.record[f] == t.unmarshal(value).record[f])
  {
    var parsed := t.unmarshal(value);
    if parsed.err.Some? then parsed
    else Unmarshalled(WithValues(parsed.record, p.keyCodec.fieldDescriptors, key), None)
  }

  /**
   * Unmarshals `value` into `message`, then rehydrates the primary-key
   * fields from `key`.
   */
  method Unmarshal(p: PrimaryKeyCodec, key: seq<Value>, value: Bytes, message: Message)
    returns (err: Option<Error>)
    requires |key| >= |p.keyCodec.fieldDescriptors| || message.messageType.unmarshal(value).err.Some?
    modifies message
    ensures Rehydrated(p, message.messageType, key, value) == Unmarshalled(message.fields, err)
  {
    err := Proto.Unmarshal(value, message);
    if err.Some? {
      return;
    }
    SetValues(p.keyCodec, message, key);
  }
}
