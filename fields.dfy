/** The data model that stands in for Go reflection: a struct type is an
    ordered sequence of field descriptors, a struct value an equally long
    sequence of slots, and a wire document a key/value map. */
module Fields {
  import opened Wrappers
  import Text

  /** A decoded JSON value, as held in a map[string]interface{}. Numbers are
      modelled as integers. */
  datatype Value =
    | Null
    | Bool(b: bool)
    | Num(n: int)
    | Str(s: string)
    | Arr(items: seq<Value>)
    | Obj(entries: map<string, Value>)

  /** The wire form of a record: an unordered key/value map. */
  type Document = map<string, Value>

  /** One struct field: its Go name, its json tag (Tag.Lookup: absent or
      present), its bson tag (Tag.Get: "" when absent) and its type as
      reflect.Type.String() prints it. */
  datatype Field = Field(name: string, json: Option<string>, bson: string, typeName: string)

  /** One field of a struct value. A pointer-typed field holds a nil or
      non-nil pointer; any other field holds the dynamic value that
      f.Interface() yields (for a field of type string, a Str). */
  datatype Slot = PtrField(target: Option<Value>) | ValueField(v: Value)

  type Record = seq<Slot>

  predicate IsPointerType(typeName: string) {
    |typeName| > 0 && typeName[0] == '*'
  }

  /** The static typing Go guarantees: a value of the struct type has one
      slot per field, pointer slots exactly in pointer-typed fields, and a
      string in every field of type string. */
  predicate Conforms(shape: seq<Field>, record: Record) {
    && |record| == |shape|
    && (forall i :: 0 <= i < |shape| ==> (IsPointerType(shape[i].typeName) <==> record[i].PtrField?))
    && (forall i :: 0 <= i < |shape| && shape[i].typeName == "string" ==>
          record[i].ValueField? && record[i].v.Str?)
  }

  /** What encoding/json writes for a slot: the pointee, or null. */
  function JsonOf(slot: Slot): Value {
    match slot
    case PtrField(None) => Null
    case PtrField(Some(v)) => v
    case ValueField(v) => v
  }

  /** The wire name a json tag gives: its first comma-separated component. */
  function TagName(tag: string): string {
    Text.Head(tag, ',')
  }

  /** The comma-separated components of a tag, split as strings.Split does. */
  function TagParts(tag: string): seq<string> {
    Text.Split(tag, ',')
  }

  /** Some component of the tag, trimmed of white space, equals `marker`. */
  predicate HasMarker(tag: string, marker: string) {
    var parts := TagParts(tag);
    exists k :: 0 <= k < |parts| && Text.TrimSpace(parts[k]) == marker
  }

  /** The json name the lookups report: the json tag's first component if
      the tag is present, otherwise the Go field name. */
  function JsonNameOr(f: Field): string {
    if f.json.Some? then TagName(f.json.value) else f.name
  }
}
