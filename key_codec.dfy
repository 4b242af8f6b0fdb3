/**
 * The composite-key codec the primary-key codec embeds (`KeyCodec`).  Its
 * per-field order-preserving encodings are not modelled: `encode` and
 * `decode` are function values, and the law assumed of them is `Lawful`.
 */
module KeyCodecs {
  import opened OrmTypes
  import opened Proto

  /**
   * The three outcomes of decoding a key: every field decoded (`err == nil`),
   * the input ran out on a field boundary (`io.EOF`, a prefix key, with the
   * fields decoded so far), or malformed bytes (any other error).
   */
  datatype KeyDecoding =
    | Full(values: seq<Value>)
    | Prefix(values: seq<Value>)
    | Corrupt(err: DecodeFailure)

  /**
   * A key codec: the key's field descriptors in order (one field codec per
   * descriptor, so `len(FieldCodecs) == |fieldDescriptors|`), and its encode
   * and decode.
   */
  datatype KeyCodec = KeyCodec(
    fieldDescriptors: seq<FieldDescriptor>,
    encode: seq<Value> -> Result<Bytes>,
    decode: Bytes -> KeyDecoding)

  /**
   * The law assumed of a key codec: it encodes at most one value per key
   * field, and decoding what it encoded gives the values back, as a full key
   * when every field was given and as a prefix key otherwise.
   */
  ghost predicate Lawful(kc: KeyCodec)
  {
    forall vs: seq<Value> :: kc.encode(vs).Ok? ==>
      && |vs| <= |kc.fieldDescriptors|
      && kc.decode(kc.encode(vs).value) == (if |vs| == |kc.fieldDescriptors| then Full(vs) else Prefix(vs))
  }

  /**
   * `SetValues(message, values)`: sets each key field of the message to the
   * value at the same position.
   */
  method SetValues(kc: KeyCodec, message: Message, values: seq<Value>)
    requires |values| >= |kc.fieldDescriptors|
    modifies message
    ensures message.fields == WithValues(old(message.fields), kc.fieldDescriptors, values)
  {
    var fs := kc.fieldDescriptors;
    for i := 0 to |fs|
      invariant WithValues(message.fields, fs[i..], values[i..]) == WithValues(old(message.fields), fs, values)
    {
      assert fs[i..][1..] == fs[i + 1..] && values[i..][1..] == values[i + 1..];
      message.Set(fs[i], values[i]);
    }
  }
}
