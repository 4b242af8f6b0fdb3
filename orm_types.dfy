/**
 * Values shared by the ORM key/value encoding layer: the reflective field
 * values a key is made of, field descriptors, byte strings, and the errors
 * the codecs return.
 */
module OrmTypes {

  /** Byte strings, as stored in the key/value store. */
  type Bytes = seq<bv8>

  /** Go's `nil` versus a present value. */
  datatype Option<+T> = None | Some(value: T)

  /** A Go `(result, error)` pair in which exactly one side is meaningful. */
  datatype Result<+T> = Ok(value: T) | Err(error: Error)

  /**
   * The errors the primary-key codec can return.  `EOF` is `io.EOF`, the
   * signal a key codec uses for a prefix key; `BadDecodeEntry` is
   * `ormerrors.BadDecodeEntry`; every other error comes from a collaborator
   * (key codec, protobuf marshal or unmarshal) and is passed on unchanged.
   */
  datatype Error =
    | EOF
    | BadDecodeEntry
    | Opaque(reason: string)

  /** A key-decoding failure: any error except the `io.EOF` prefix signal. */
  type DecodeFailure = e: Error | e != EOF witness BadDecodeEntry

  /** One schema field, identified by its number and name. */
  datatype FieldDescriptor = FieldDescriptor(number: nat, name: string)

  /**
   * A reflective field value (`protoreflect.Value`) restricted to the kinds a
   * key field can have.  The codecs only move values around and compare them,
   * so integer widths play no role here.
   */
  datatype Value =
    | BoolValue(b: bool)
    | IntValue(i: int)
    | UintValue(u: nat)
    | StringValue(s: string)
    | BytesValue(bytes: Bytes)
    | EnumValue(number: int)
}
