/**
 * Properties of the primary-key codec that relate several calls: the row
 * round trip, the primary-index reading of full and prefix keys, and the
 * rehydration of key fields under both policies for the record body (key
 * fields cleared before marshalling, or marshalled with the rest of the
 * record as `EncodeKV` does).
 */
module PrimaryKeyProperties {
  import opened OrmTypes
  import opened Proto
  import opened KeyCodecs
  import opened Entries
  import opened PrimaryKey

  /** `DecodeIndexKey` reads only the key bytes. */
  lemma DecodeIndexKeyIgnoresValue(p: PrimaryKeyCodec, k: Bytes, v1: Bytes, v2: Bytes)
    ensures DecodeIndexKey(p, k, v1) == DecodeIndexKey(p, k, v2)
  {
  }

  /**
   * Reading an encoded key as an index: a full key is both the index fields
   * and the primary key; a prefix key gives its fields and no primary key.
   */
  lemma DecodeIndexKeyOfEncodedKey(p: PrimaryKeyCodec, vs: seq<Value>, value: Bytes)
    requires Lawful(p.keyCodec)
    requires p.keyCodec.encode(vs).Ok?
    ensures DecodeIndexKey(p, p.keyCodec.encode(vs).value, value)
         == Ok(IndexKey(vs, if |vs| == |p.keyCodec.fieldDescriptors| then Some(vs) else None))
  {
  }

  /** A row written by `EncodeKV` with a complete key is read back by `DecodeKV` unchanged. */
  lemma DecodeKVInvertsEncodeKV(p: PrimaryKeyCodec, entry: Entry)
    requires Lawful(p.keyCodec) && RoundTrips(p.messageType)
    requires EncodeKV(p, entry).Ok?
    requires |entry.key| == |p.keyCodec.fieldDescriptors|
    ensures DecodeKV(p, EncodeKV(p, entry).value.key, EncodeKV(p, entry).value.value) == Ok(entry)
  {
  }

  /**
   * `EncodeKV` checks no key arity of its own: if the key codec accepts a
   * short key, the row it writes is a prefix key that `DecodeKV` refuses
   * with `io.EOF`.
   */
  lemma EncodeKVOfShortKeyIsNotDecodable(p: PrimaryKeyCodec, entry: Entry)
    requires Lawful(p.keyCodec)
    requires EncodeKV(p, entry).Ok?
    requires |entry.key| < |p.keyCodec.fieldDescriptors|
    ensures DecodeKV(p, EncodeKV(p, entry).value.key, EncodeKV(p, entry).value.value) == Err(EOF)
  {
  }

  /**
   * Key/value non-duplication: a record body marshalled with its key fields
   * cleared, unmarshalled and rehydrated from the key values, is the record.
   */
  lemma RehydrateClearedBody(p: PrimaryKeyCodec, t: MessageType, r: Record)
    requires RoundTrips(t)
    requires forall f :: f in p.keyCodec.fieldDescriptors ==> f in r
    requires t.marshal(Cleared(r, p.keyCodec.fieldDescriptors)).Ok?
    ensures
      var fs := p.keyCodec.fieldDescriptors;
      Rehydrated(p, t, FieldValues(r, fs), t.marshal(Cleared(r, fs)).value) == Unmarshalled(r, None)
  {
    var fs := p.keyCodec.fieldDescriptors;
    var c := Cleared(r, fs);
    assert t.unmarshal(t.marshal(c).value) == Unmarshalled(c, None);
    assert Cleared(c, fs) == Cleared(r, fs);
    RestoreFields(c, r, fs);
  }

  /**
   * The same for the value bytes `EncodeKV` writes, which keep the key
   * fields: rehydrating from the entry's key gives back the entry's record.
   * So `Unmarshal` is consistent with either policy for the record body.
   */
  lemma RehydrateEncodedRow(p: PrimaryKeyCodec, entry: Entry)
    requires RoundTrips(p.messageType)
    requires EncodeKV(p, entry).Ok?
    requires forall f :: f in p.keyCodec.fieldDescriptors ==> f in entry.value.fields
    requires entry.key == FieldValues(entry.value.fields, p.keyCodec.fieldDescriptors)
    ensures Rehydrated(p, p.messageType, entry.key, EncodeKV(p, entry).value.value)
         == Unmarshalled(entry.value.fields, None)
  {
    var r := entry.value.fields;
    assert p.messageType.unmarshal(p.messageType.marshal(r).value) == Unmarshalled(r, None);
    RestoreFields(r, r, p.keyCodec.fieldDescriptors);
  }

  /**
   * `DecodeKV` does not rehydrate: from a row whose body was marshalled with
   * the key fields cleared, it returns the record without them.  It relies on
   * `EncodeKV` keeping the key fields in the body.
   */
  lemma DecodeKVDoesNotRehydrate(p: PrimaryKeyCodec, vs: seq<Value>, r: Record)
    requires Lawful(p.keyCodec) && RoundTrips(p.messageType)
    requires p.keyCodec.encode(vs).Ok? && |vs| == |p.keyCodec.fieldDescriptors|
    requires p.messageType.marshal(Cleared(r, p.keyCodec.fieldDescriptors)).Ok?
    requires exists f :: f in p.keyCodec.fieldDescriptors && f in r
    ensures
      var d := DecodeKV(p, p.keyCodec.encode(vs).value,
                        p.messageType.marshal(Cleared(r, p.keyCodec.fieldDescriptors)).value);
      d.Ok? && d.value.value.fields == Cleared(r, p.keyCodec.fieldDescriptors) && d.value.value.fields != r
  {
    var f :| f in p.keyCodec.fieldDescriptors && f in r;
    assert f !in Cleared(r, p.keyCodec.fieldDescriptors);
  }
}
