/**
 * The protobuf collaborators of the primary-key codec: a message's fields as a
 * map, the message type with its marshal and unmarshal primitives, and the
 * in-place `Clear`, `Set` and `proto.Unmarshal` operations on a message.
 * The wire format itself is not modelled: marshal and unmarshal are function
 * values, and the law they are assumed to obey is the predicate `RoundTrips`.
 */
module Proto {
  import opened OrmTypes

  /** The populated fields of a message; a cleared field is absent. */
  type Record = map<FieldDescriptor, Value>

  /** What `proto.Unmarshal` leaves in the target message, and its error. */
  datatype Unmarshalled = Unmarshalled(record: Record, err: Option<Error>)

  /**
   * A message type (`protoreflect.MessageType`): its full name and the
   * deterministic marshal and the unmarshal of messages of this type.
   * A function value is deterministic by construction, which is what
   * `proto.MarshalOptions{Deterministic: true}` asks for.
   */
  datatype MessageType = MessageType(
    fullName: string,
    marshal: Record -> Result<Bytes>,
    unmarshal: Bytes -> Unmarshalled)

  /** The law assumed of a message type: unmarshal inverts a successful marshal. */
  ghost predicate RoundTrips(t: MessageType)
  {
    forall r: Record :: t.marshal(r).Ok? ==> t.unmarshal(t.marshal(r).value) == Unmarshalled(r, None)
  }

  /** A message value, as carried by an entry: its type's full name and its fields. */
  datatype Msg = Msg(typeName: string, fields: Record)

  /** `r` with every field in `fs` cleared. */
  function Cleared(r: Record, fs: seq<FieldDescriptor>): (c: Record)
    ensures forall f :: f in c <==> f in r && f !in fs
    ensures forall f :: f in c ==> c[f] == r[f]
  {
    r - (set f | f in fs)
  }

  /**
   * `r` after setting field `fs[i]` to `vs[i]` for each `i` in order, as a
   * loop of `Set` calls does: a field listed twice keeps its last value.
   */
  function WithValues(r: Record, fs: seq<FieldDescriptor>, vs: seq<Value>): (s: Record)
    requires |vs| >= |fs|
    ensures s.Keys == r.Keys + (set f | f in fs)
    ensures forall f :: f in r && f !in fs ==> s[f] == r[f]
    ensures forall i :: 0 <= i < |fs| && fs[i] !in fs[i + 1..] ==> s[fs[i]] == vs[i]
    decreases |fs|
  {
    if fs == [] then r else WithValues(r[fs[0] := vs[0]], fs[1..], vs[1..])
  }

  /** The position of the last occurrence of `f` in `fs`. */
  function LastIndex(fs: seq<FieldDescriptor>, f: FieldDescriptor): (i: nat)
    requires f in fs
    ensures i < |fs| && fs[i] == f && f !in fs[i + 1..]
    decreases |fs|
  {
    if fs[|fs| - 1] == f then |fs| - 1 else LastIndex(fs[..|fs| - 1], f)
  }

  /** The values of the fields `fs` of `r`, in order. */
  function FieldValues(r: Record, fs: seq<FieldDescriptor>): (vs: seq<Value>)
    requires forall f :: f in fs ==> f in r
    ensures |vs| == |fs| && forall i :: 0 <= i < |fs| ==> vs[i] == r[fs[i]]
  {
    seq(|fs|, i requires 0 <= i < |fs| => r[fs[i]])
  }

  /**
   * Setting the fields `fs` of `base` to their values in `r` gives back `r`,
   * provided `base` and `r` agree on every other field.  This is why a record
   * body that omits (or repeats) the key fields can be rehydrated exactly.
   */
  lemma RestoreFields(base: Record, r: Record, fs: seq<FieldDescriptor>)
    requires forall f :: f in fs ==> f in r
    requires Cleared(base, fs) == Cleared(r, fs)
    ensures WithValues(base, fs, FieldValues(r, fs)) == r
  {
    var vs := FieldValues(r, fs);
    var s := WithValues(base, fs, vs);
    forall f | f in fs
      ensures f in s && s[f] == r[f]
    {
      var i := LastIndex(fs, f);
    }
    forall f | f !in fs
      ensures f in s <==> f in r
      ensures f in s ==> s[f] == r[f]
    {
      assert f in Cleared(base, fs) <==> f in base;
      assert f in Cleared(r, fs) <==> f in r;
    }
    assert s.Keys == r.Keys;
  }

  /** A mutable message instance (`protoreflect.Message`). */
  class Message {
    const messageType: MessageType
    var fields: Record

    /** A new, empty message of type `t` (`t.New()`). */
    constructor (t: MessageType)
      ensures messageType == t && fields == map[]
    {
      messageType := t;
      fields := map[];
    }

    /** `Clear(f)`: the field becomes unpopulated; nothing else changes. */
    method Clear(f: FieldDescriptor)
      modifies this
      ensures fields == old(fields) - {f}
    {
      fields := fields - {f};
    }

    /** `Set(f, v)`: the field holds `v`; nothing else changes. */
    method Set(f: FieldDescriptor, v: Value)
      modifies this
      ensures fields == old(fields)[f := v]
    {
      fields := fields[f := v];
    }
  }

  /**
   * `proto.Unmarshal(value, message)`: resets the message and parses `value`
   * into it with the message's own type.  On failure the message holds
   * whatever the parser had produced.
   */
  method Unmarshal(value: Bytes, message: Message) returns (err: Option<Error>)
    modifies message
    ensures err == message.messageType.unmarshal(value).err
    ensures message.fields == message.messageType.unmarshal(value).record
  {
    var u := message.messageType.unmarshal(value);
    message.fields := u.record;
    err := u.err;
  }
}
