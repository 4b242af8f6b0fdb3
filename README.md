# Primary-key codec of the ORM key/value encoding layer

This project models `PrimaryKeyCodec` from the ORM's key/value encoding layer
(`orm/encoding/ormkv`). The codec turns a table row into a `(key bytes, value bytes)`
pair and back. A row is a primary-key entry: the primary-key values plus the whole
record. The codec also reads a raw key as an index key, and it clears or rehydrates
the primary-key fields of a message.

Modules:

- `OrmTypes` (`orm_types.dfy`): byte strings, field descriptors, reflective values,
  `Option`/`Result`, and the errors. `EOF` stands for `io.EOF` and `BadDecodeEntry`
  for `ormerrors.BadDecodeEntry`. `Opaque` is an error passed on from a collaborator.
- `Proto` (`proto.dfy`): protobuf as the codec sees it. A message's fields form a map;
  a cleared field is absent from it. A message type carries its full name and two
  function values, marshal and unmarshal. `RoundTrips` is the law assumed of them.
  The `Message` class has in-place `Clear`/`Set`, and `Proto.Unmarshal` is `proto.Unmarshal`.
- `KeyCodecs` (`key_codec.dfy`): the embedded `KeyCodec`. Its decode has three
  outcomes: `Full` (no error), `Prefix` (`io.EOF`, with the fields decoded so far) and
  `Corrupt` (any other error). `Lawful` is the round-trip law assumed of encode and decode.
  `SetValues` sets key fields on a message.
- `Entries` (`entry.dfy`): the `Entry` variants, `PrimaryKeyEntry` and `IndexKeyEntry`.
- `PrimaryKey` (`primary_key.dfy`): the codec itself. `DecodeIndexKey`, `DecodeKV` and
  `EncodeKV` are functions; Go gives them value receivers and they only compute results.
  `ClearValues` and `Unmarshal` are methods that change a `Message` in place.
- `PrimaryKeyProperties` (`primary_key_properties.dfy`): lemmas that relate several calls.

The collaborators' laws are not assumed globally. Each lemma that needs one states
`Lawful(...)` or `RoundTrips(...)` as a precondition.

Choices the code makes that the model keeps:

- `DecodeKV` fails with `io.EOF` on a prefix key; it has no separate malformed-key error.
- Both `EncodeKV` guards return `ormerrors.BadDecodeEntry`: the wrong entry variant,
  and a message type whose full name differs from the codec's.
- `EncodeKV` marshals the whole record and does not clear the key fields first.
  `RehydrateClearedBody` and `RehydrateEncodedRow` show that `Unmarshal` restores the
  record under either body policy. `DecodeKVDoesNotRehydrate` shows that `DecodeKV`
  is only right with the full-body policy that `EncodeKV` uses.

A message appears in two forms. An entry holds a message as a value, `Msg`, because
`DecodeKV` and `EncodeKV` only build and read entries and never change a message that
the caller still holds. `ClearValues` and `Unmarshal` change the caller's message in
place, so they act on an instance of the `Message` class. Its constructor stands for
`Type.New()`, which makes a fresh, empty message of a type.

## Model

| member | source | states |
|---|---|---|
| `PrimaryKey.DecodeIndexKey` | orm/encoding/ormkv/primary_key.go:19-36 | It fails exactly when key decoding reports a real error (not `io.EOF`), and then returns that error and no fields. Otherwise the index fields are the decoded values. There is a primary key iff the decode was complete and has one value per key field, and then it equals the index fields. A prefix key gives its fields and no primary key, with no error. |
| `PrimaryKey.DecodeKV` | orm/encoding/ormkv/primary_key.go:40-56 | It succeeds iff the key decodes completely and the value unmarshals. A prefix key fails with `io.EOF`, a corrupt key with its decode error, and a bad body with the unmarshal error. On success it returns a primary-key entry: the key is the decoded values and the value is a fresh message of the codec's type holding the unmarshalled record. |
| `PrimaryKey.EncodeKV` | orm/encoding/ormkv/primary_key.go:58-79 | A non-primary-key entry, or one whose message full name differs from the codec's type, gives `BadDecodeEntry`. It succeeds iff both guards pass and both the key encode and the marshal succeed. Then the key bytes are the key codec's encoding of the entry key, and the value bytes are the marshal of the whole record. Otherwise the first failing step's error is returned, with no bytes. |
| `PrimaryKey.ClearValues` | orm/encoding/ormkv/primary_key.go:81-85 | Afterwards no primary-key field is populated, and every other field keeps its old value. |
| `PrimaryKey.Rehydrated` | orm/encoding/ormkv/primary_key.go:87-95 | The result of `Unmarshal`. On a parse error it is the parser's output and the error, with no key field set. Otherwise the fields are the parsed fields plus the key fields. Each key field holds the value at its position in `key` (the last position if a field is listed twice). Every other parsed field is unchanged. |
| `PrimaryKey.Unmarshal` | orm/encoding/ormkv/primary_key.go:87-95 | The message's new fields and the returned error are exactly what `Rehydrated` describes for the message's own type. |
| `PrimaryKeyProperties.DecodeIndexKeyIgnoresValue` | orm/encoding/ormkv/primary_key.go:19 | The result of `DecodeIndexKey` does not depend on the value bytes. |
| `PrimaryKeyProperties.DecodeIndexKeyOfEncodedKey` | orm/encoding/ormkv/primary_key.go:19-34 | For a lawful key codec: reading an encoded full key as an index gives `indexFields == primaryKey ==` the key. An encoded prefix key gives its values and no primary key. |
| `PrimaryKeyProperties.DecodeKVInvertsEncodeKV` | orm/encoding/ormkv/primary_key.go:40-79 | With a lawful key codec and a message type whose marshal round-trips, `DecodeKV` of a row written by `EncodeKV` with a complete key returns the original entry. |
| `PrimaryKeyProperties.EncodeKVOfShortKeyIsNotDecodable` | orm/encoding/ormkv/primary_key.go:40-71 | `EncodeKV` does no key-arity check of its own. If the key codec accepts a short key, `DecodeKV` refuses the resulting row with `io.EOF`. |
| `PrimaryKeyProperties.RehydrateClearedBody` | orm/encoding/ormkv/primary_key.go:81-95 | If the body was marshalled with the key fields cleared, unmarshalling it and rehydrating from the record's key values gives back the record exactly. |
| `PrimaryKeyProperties.RehydrateEncodedRow` | orm/encoding/ormkv/primary_key.go:58-95 | Rehydrating `EncodeKV`'s value bytes, which keep the key fields, from the entry's key gives back the entry's record. |
| `PrimaryKeyProperties.DecodeKVDoesNotRehydrate` | orm/encoding/ormkv/primary_key.go:40-56 | `DecodeKV` of a row whose body omits the key fields returns that body with the key fields still missing, which differs from the stored record. |
| `Proto.RestoreFields` | orm/encoding/ormkv/primary_key.go:93-94 | Take a record and a base that agree on every field except the key fields. Setting the base's key fields to the record's values gives back the record. |
| `Proto.WithValues` | orm/encoding/ormkv/primary_key.go:94 | Setting key fields in order: the new field set is the old one plus the key fields. Each key field holds the value at its last position, and every other field is unchanged. |
| `Proto.Unmarshal` | orm/encoding/ormkv/primary_key.go:88 | The message holds what its own type's unmarshal parses from the bytes, and the parse error is returned. |
| `Proto.Message.Clear` | orm/encoding/ormkv/primary_key.go:83 | The field is removed and nothing else changes. |
| `Proto.Message.Set` | orm/encoding/ormkv/primary_key.go:94 | The field holds the value and nothing else changes. |
| `KeyCodecs.SetValues` | orm/encoding/ormkv/primary_key.go:94 | The message's fields become `WithValues` of its old fields, the key field descriptors and the values. |

## Left out

- The internals of `KeyCodec` and of the per-field order-preserving encodings are not part of this model. Key encode and decode are function values, and their round-trip law is the precondition `Lawful`. Byte-order preservation is not stated or proved.
- The protobuf wire format, `proto.Unmarshal`, deterministic `proto.Marshal` and `protoreflect` are not part of this model. Marshal and unmarshal are function values, and their round-trip law is the precondition `RoundTrips`.
- Message types are identified by full name. `EncodeKV` marshals with the codec's own type once the full names match. This relies on a protobuf type registry mapping each full name to one type.
- `Proto.Message.Set`: storing a zero value into a proto3 field without presence is modelled as populating the field, not clearing it.
- `KeyCodecs.SetValues`: the key codec's own source is not part of this model. The model sets each key field from the value at its position and requires at least one value per key field, because Go would index past the end of a shorter slice.
- The key codec's number of field codecs (`len(p.FieldCodecs)`, compared at line 29) and its number of field descriptors (`p.FieldDescriptors`, looped over at line 82) are taken to be equal: the model has one list, `fieldDescriptors`, and uses its length for both.
- `PrimaryKey.ClearValues`, `PrimaryKey.Unmarshal`, `PrimaryKey.EncodeKV`: the model does not represent the source's panics. `Clear` (line 83) and `Set` (through `SetValues`, line 94) panic on a field descriptor that does not belong to the message's type, while the model's `Message.Clear` and `Message.Set` are total map updates on a message of any type. `EncodeKV` panics at line 64 when the entry's message is a nil `proto.Message`, and `Msg` has no nil form.
- `PrimaryKey.Unmarshal`, `PrimaryKey.Rehydrated`: they require at least one key value per key field unless the value bytes fail to parse, because Go returns the parse error before `SetValues` runs and otherwise indexes past the end of a shorter key.
- Go's `nil` slices are modelled with `Option` (for `primaryKey`) and with the `Err` variant of `Result` (no fields and no bytes on error). An empty slice and a `nil` slice are not distinguished.
- `var _ IndexCodec = PrimaryKeyCodec{}` (line 38) is a compile-time interface assertion and has no behaviour to model. The other index codecs and the `IndexCodec` interface are not part of this model.
- A `*PrimaryKeyEntry` pointer fails Go's type assertion in `EncodeKV`. The model has no pointer variant of `Entry`, so that case is not represented.
