/**
 * The part of an OpenAPI schema object that the schema transformers read
 * and write. A schema's properties are an ordered dictionary from names to
 * property schemas, which are objects of their own.
 */
module OpenApiSchemas {
  import opened Wrappers

  /** The flags of `JsonSchemaType`; a schema's type is a set of them. */
  datatype SchemaType = NullType | BooleanType | IntegerType | NumberType | StringType | ArrayType | ObjectType

  /** The example values the transformers write. */
  datatype ExampleValue = ExampleString(s: string) | ExampleNumber(n: int)

  /** The runtime type a schema was generated for. */
  datatype ClrType =
    | Short | Int | Long | Float | Double | Decimal
    | NullableOf(underlying: ClrType)   // `Nullable<T>`
    | NamedType(fullName: string)       // any other type

  class Schema {
    var typeFlags: Option<set<SchemaType>>
    var pattern: Option<string>
    var description: Option<string>
    var example: Option<ExampleValue>
    /** Whether the `Examples` collection is present. */
    var hasExamples: bool
    /** Whether this is a concrete schema, as opposed to a reference to one. */
    const concrete: bool
    var properties: Option<seq<(string, Schema)>>

    constructor(concrete: bool)
      ensures this.concrete == concrete
      ensures typeFlags == None && pattern == None && description == None
      ensures example == None && !hasExamples && properties == None
    {
      this.concrete := concrete;
      typeFlags := None;
      pattern := None;
      description := None;
      example := None;
      hasExamples := false;
      properties := None;
    }
  }

  /** The property schemas of `props`. */
  function Children(props: seq<(string, Schema)>): set<Schema> {
    set i | 0 <= i < |props| :: props[i].1
  }

  /** No property schema object is shared between two names. */
  ghost predicate DistinctSchemas(props: seq<(string, Schema)>) {
    forall i, j :: 0 <= i < j < |props| ==> props[i].1 != props[j].1
  }
}
