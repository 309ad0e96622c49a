/**
 * The schema naming rule of the API document: the framework's default
 * schema name, less a common model suffix.
 */
module SchemaReferenceIds {
  import opened Wrappers
  import opened Text

  /** Checked in this order; at most one is removed. */
  const CommonModelSuffixes: seq<string> := ["Model", "Dto"]

  /** The first suffix of `suffixes` that `name` ends with, ignoring case. */
  function FirstSuffix(name: string, suffixes: seq<string>): (r: Option<string>)
    ensures r.Some? ==> r.value in suffixes && EndsWithIgnoreCase(name, r.value)
    ensures r.None? ==> forall p :: p in suffixes ==> !EndsWithIgnoreCase(name, p)
  {
    if suffixes == [] then None
    else if EndsWithIgnoreCase(name, suffixes[0]) then Some(suffixes[0])
    else FirstSuffix(name, suffixes[1..])
  }

  /** The schema reference id for a type whose default name is `defaultName`. */
  function CreateSchemaReferenceId(defaultName: Option<string>): (r: Option<string>)
    ensures r.None? <==> defaultName.None?
    ensures r.Some? ==> |r.value| <= |defaultName.value| && r.value == defaultName.value[..|r.value|]
  {
    match defaultName
    case None => None
    case Some(name) =>
      match FirstSuffix(name, CommonModelSuffixes)
      case None => Some(name)
      case Some(suffix) => Some(name[..|name| - |suffix|])
  }

  /** A name ending in "Model", in any case, loses exactly those five characters. */
  lemma ModelSuffixRemoved(name: string)
    requires EndsWithIgnoreCase(name, "Model")
    ensures CreateSchemaReferenceId(Some(name)) == Some(name[..|name| - 5])
  {
  }

  /** A name ending in "Dto" but not "Model" loses those three characters. */
  lemma DtoSuffixRemoved(name: string)
    requires !EndsWithIgnoreCase(name, "Model") && EndsWithIgnoreCase(name, "Dto")
    ensures CreateSchemaReferenceId(Some(name)) == Some(name[..|name| - 3])
  {
  }

  /** A name with neither suffix is kept. */
  lemma NoSuffixUnchanged(name: string)
    requires !EndsWithIgnoreCase(name, "Model") && !EndsWithIgnoreCase(name, "Dto")
    ensures CreateSchemaReferenceId(Some(name)) == Some(name)
  {
  }

  /** Only one suffix goes: "RouteDtoModel" becomes "RouteDto", and "userdto" becomes "user". */
  lemma OneSuffixOnly()
    ensures CreateSchemaReferenceId(Some("RouteDtoModel")) == Some("RouteDto")
    ensures CreateSchemaReferenceId(Some("userdto")) == Some("user")
  {
    var a := "RouteDtoModel";
    assert a[|a| - 5..] == "Model";
    assert EqualsIgnoreCase(a[|a| - 5..], "Model");
    ModelSuffixRemoved(a);
    assert a[..|a| - 5] == "RouteDto";
    var b := "userdto";
    assert !EndsWithIgnoreCase(b, "Model") by {
      assert !CharEqualsIgnoreCase(b[|b| - 5..][0], "Model"[0]);
    }
    assert EndsWithIgnoreCase(b, "Dto") by {
      assert b[|b| - 3..] == "dto";
      assert ToUpper('d') == 'D' && ToUpper('t') == 'T' && ToUpper('o') == 'O';
    }
    DtoSuffixRemoved(b);
    assert b[..|b| - 3] == "user";
  }
}
