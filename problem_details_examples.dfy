/**
 * The schema transformer that documents the problem-details error shape:
 * it defaults the schema's description and gives each of its properties a
 * fixed example, never overwriting an example that is already there.
 */
module ProblemDetailsExamples {
  import opened Wrappers
  import opened OpenApiSchemas

  const ProblemDetailsType := NamedType("Microsoft.AspNetCore.Mvc.ProblemDetails")
  const DefaultDescription := "An RFC9457-compatible error response."

  /** The fixed example of each standard property; none for other names. */
  function ExampleFor(propertyName: string): (r: Option<ExampleValue>)
    ensures r.Some? <==> propertyName in {"type", "title", "status", "detail", "instance"}
    ensures propertyName == "status" ==> r == Some(ExampleNumber(404))
  {
    match propertyName
    case "type" => Some(ExampleString("https://tools.ietf.org/html/rfc9110#section-15.5.5"))
    case "title" => Some(ExampleString("Not Found"))
    case "status" => Some(ExampleNumber(404))
    case "detail" => Some(ExampleString("No route configured for GET /does/not/exist"))
    case "instance" => Some(ExampleString("/$$/api/routes/GET/does/not/exist"))
    case _ => None
  }

  /** The example a property has afterwards. */
  function ExampleAfter(name: string, example: Option<ExampleValue>, hasExamples: bool, concrete: bool)
    : (r: Option<ExampleValue>)
    ensures example.Some? || hasExamples || !concrete ==> r == example
  {
    if example.Some? || hasExamples then example
    else if !concrete then example
    else ExampleFor(name)
  }

  /** Whether the transformer acts at all. */
  predicate Applies(jsonType: ClrType, properties: Option<seq<(string, Schema)>>) {
    jsonType == ProblemDetailsType && properties.Some?
  }

  method AddProblemDetailsExamples(schema: Schema, jsonType: ClrType)
    requires schema.properties.Some? ==>
      DistinctSchemas(schema.properties.value) && schema !in Children(schema.properties.value)
    modifies schema, if schema.properties.Some? then Children(schema.properties.value) else {}
    ensures schema.properties == old(schema.properties)
    ensures schema.description ==
      if Applies(jsonType, old(schema.properties)) && old(schema.description).None?
      then Some(DefaultDescription) else old(schema.description)
    ensures schema.properties.Some? ==> var props := schema.properties.value;
      forall i :: 0 <= i < |props| ==>
        props[i].1.example ==
          if Applies(jsonType, old(schema.properties))
          then ExampleAfter(props[i].0, old(props[i].1.example), old(props[i].1.hasExamples), props[i].1.concrete)
          else old(props[i].1.example)
    ensures schema.typeFlags == old(schema.typeFlags) && schema.pattern == old(schema.pattern)
    ensures schema.example == old(schema.example) && schema.hasExamples == old(schema.hasExamples)
    ensures schema.properties.Some? ==> forall c :: c in Children(schema.properties.value) ==>
      c.typeFlags == old(c.typeFlags) && c.pattern == old(c.pattern) && c.description == old(c.description) &&
      c.hasExamples == old(c.hasExamples) && c.properties == old(c.properties)
  {
    if jsonType != ProblemDetailsType {
      return;
    }
    if schema.properties.None? {
      return;
    }
    if schema.description.None? {
      schema.description := Some(DefaultDescription);
    }
    FillExamples(schema.properties.value);
  }

  /** The loop over the properties: fills each in turn. */
  method FillExamples(props: seq<(string, Schema)>)
    requires DistinctSchemas(props)
    modifies Children(props)
    ensures forall i :: 0 <= i < |props| ==>
      props[i].1.example == ExampleAfter(props[i].0, old(props[i].1.example), old(props[i].1.hasExamples), props[i].1.concrete)
    ensures forall c :: c in Children(props) ==>
      c.typeFlags == old(c.typeFlags) && c.pattern == old(c.pattern) && c.description == old(c.description) &&
      c.hasExamples == old(c.hasExamples) && c.properties == old(c.properties)
  {
    for i := 0 to |props|
      invariant forall j :: 0 <= j < i ==>
        props[j].1.example == ExampleAfter(props[j].0, old(props[j].1.example), old(props[j].1.hasExamples), props[j].1.concrete)
      invariant forall j :: i <= j < |props| ==> props[j].1.example == old(props[j].1.example)
      invariant forall c :: c in Children(props) ==>
        c.typeFlags == old(c.typeFlags) && c.pattern == old(c.pattern) && c.description == old(c.description) &&
        c.hasExamples == old(c.hasExamples) && c.properties == old(c.properties)
    {
      var (propertyName, propertySchema) := props[i];
      if propertySchema.example.Some? || propertySchema.hasExamples {
        continue;
      }
      if !propertySchema.concrete {
        continue;
      }
      propertySchema.example := ExampleFor(propertyName);
    }
  }

  /** An example or examples already present are never overwritten. */
  lemma ExistingExampleKept(name: string, example: Option<ExampleValue>, hasExamples: bool, concrete: bool)
    requires example.Some? || hasExamples
    ensures ExampleAfter(name, example, hasExamples, concrete) == example
  {
  }

  /** A concrete property without examples gets the fixed example for its name, if any. */
  lemma MissingExampleFilled(name: string)
    ensures ExampleAfter(name, None, false, true) == ExampleFor(name)
    ensures ExampleAfter("status", None, false, true) == Some(ExampleNumber(404))
    ensures ExampleAfter("title", None, false, true) == Some(ExampleString("Not Found"))
  {
  }

  /** A property with another name stays without an example. */
  lemma OtherNameGetsNoExample(name: string)
    requires name !in {"type", "title", "status", "detail", "instance"}
    ensures ExampleAfter(name, None, false, true) == None
  {
  }

  /** A reference schema is skipped. */
  lemma ReferenceSkipped(name: string, example: Option<ExampleValue>, hasExamples: bool)
    ensures ExampleAfter(name, example, hasExamples, false) == example
  {
  }
}
