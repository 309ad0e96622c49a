/**
 * The schema transformer that strips the standard documentation wording
 * ("Gets or sets ", "Gets ", "Sets ") from the start of each property's
 * description and capitalises what remains.
 */
module StandardWording {
  import opened Wrappers
  import opened Text
  import opened OpenApiSchemas

  /** Checked in this order, so "Gets or sets " wins over "Gets ". */
  const StandardPropertyPrefixes: seq<string> := ["Gets or sets ", "Gets ", "Sets "]

  /** The first prefix of `prefixes` that `text` starts with, ignoring case. */
  function FirstPrefix(text: string, prefixes: seq<string>): (r: Option<string>)
    ensures r.Some? ==> r.value in prefixes && StartsWithIgnoreCase(text, r.value)
    ensures r.None? ==> forall p :: p in prefixes ==> !StartsWithIgnoreCase(text, p)
  {
    if prefixes == [] then None
    else if StartsWithIgnoreCase(text, prefixes[0]) then Some(prefixes[0])
    else FirstPrefix(text, prefixes[1..])
  }

  /** Upper-cases the first character, if there is one. */
  function Capitalize(s: string): (r: string)
    ensures |r| == |s|
    ensures |s| > 0 ==> r[0] == ToUpper(s[0]) && r[1..] == s[1..]
  {
    if |s| > 0 then [ToUpper(s[0])] + s[1..] else s
  }

  /** The new description of one property. */
  function StripStandardWording(description: Option<string>): (r: Option<string>)
    ensures description.None? <==> r.None?
  {
    match description
    case None => None
    case Some(text) =>
      match FirstPrefix(text, StandardPropertyPrefixes)
      case None => Some(text)
      case Some(prefix) => Some(Capitalize(text[|prefix|..]))
  }

  /**
   * Rewrites each property's description in place; every other field and
   * the parent schema are left alone.
   */
  method RemoveStandardWording(schema: Schema)
    requires schema.properties.Some? ==> DistinctSchemas(schema.properties.value)
    modifies if schema.properties.Some? then Children(schema.properties.value) else {}
    ensures schema.properties == old(schema.properties)
    ensures schema.properties.Some? ==> var props := schema.properties.value;
      forall i :: 0 <= i < |props| ==>
        props[i].1.description == StripStandardWording(old(props[i].1.description))
    ensures schema.properties.Some? ==> forall c :: c in Children(schema.properties.value) ==>
      c.typeFlags == old(c.typeFlags) && c.pattern == old(c.pattern) && c.example == old(c.example) &&
      c.hasExamples == old(c.hasExamples) && c.properties == old(c.properties)
  {
    if schema.properties.None? {
      return;
    }
    var props := schema.properties.value;
    for i := 0 to |props|
      invariant schema.properties == old(schema.properties)
      invariant forall j :: 0 <= j < i ==>
        props[j].1.description == StripStandardWording(old(props[j].1.description))
      invariant forall j :: i <= j < |props| ==> props[j].1.description == old(props[j].1.description)
      invariant forall c :: c in Children(props) ==>
        c.typeFlags == old(c.typeFlags) && c.pattern == old(c.pattern) && c.example == old(c.example) &&
        c.hasExamples == old(c.hasExamples) && c.properties == old(c.properties)
    {
      var propertySchema := props[i].1;
      if propertySchema.description.None? {
        continue;
      }
      var text := propertySchema.description.value;
      var prefix := FirstPrefix(text, StandardPropertyPrefixes);
      if prefix.None? {
        continue;
      }
      var replacement := text[|prefix.value|..];
      if |replacement| > 0 {
        replacement := [ToUpper(replacement[0])] + replacement[1..];
      }
      propertySchema.description := Some(replacement);
    }
  }

  // --- Properties of the rewriting ---

  /** A description starting with none of the prefixes, in any case, is kept. */
  lemma NoPrefixUnchanged(text: string)
    requires forall p :: p in StandardPropertyPrefixes ==> !StartsWithIgnoreCase(text, p)
    ensures StripStandardWording(Some(text)) == Some(text)
  {
  }

  /**
   * A matching prefix, ignoring case, is removed and the rest capitalised;
   * the prefix removed is the first one in the list that matches.
   */
  lemma {:induction false} MatchingPrefixRemoved(text: string, k: nat)
    requires k < |StandardPropertyPrefixes|
    requires StartsWithIgnoreCase(text, StandardPropertyPrefixes[k])
    requires forall j :: 0 <= j < k ==> !StartsWithIgnoreCase(text, StandardPropertyPrefixes[j])
    ensures StripStandardWording(Some(text)) == Some(Capitalize(text[|StandardPropertyPrefixes[k]|..]))
  {
    FirstPrefixAt(text, StandardPropertyPrefixes, k);
  }

  lemma {:induction false} FirstPrefixAt(text: string, prefixes: seq<string>, k: nat)
    requires k < |prefixes| && StartsWithIgnoreCase(text, prefixes[k])
    requires forall j :: 0 <= j < k ==> !StartsWithIgnoreCase(text, prefixes[j])
    ensures FirstPrefix(text, prefixes) == Some(prefixes[k])
  {
    if k > 0 {
      FirstPrefixAt(text, prefixes[1..], k - 1);
    }
  }

  /** "Gets or sets the name." becomes "The name.", although "Gets " matches too. */
  lemma GetsOrSetsWins(rest: string)
    ensures StripStandardWording(Some("Gets or sets " + rest)) == Some(Capitalize(rest))
  {
    var text := "Gets or sets " + rest;
    assert text[..13] == "Gets or sets ";
    assert StartsWithIgnoreCase(text, "Gets or sets ");
    assert text[13..] == rest;
  }

  /** Matching ignores case: "GETS the name." becomes "The name." */
  lemma PrefixCaseIgnored()
    ensures StripStandardWording(Some("GETS the name.")) == Some("The name.")
  {
    var text := "GETS the name.";
    assert !StartsWithIgnoreCase(text, "Gets or sets ") by {
      assert !CharEqualsIgnoreCase(text[4..13][1], "Gets or sets "[5]);
    }
    assert text[..5] == "GETS ";
    assert StartsWithIgnoreCase(text, "Gets ");
    MatchingPrefixRemoved(text, 1);
    assert text[5..] == "the name.";
    assert ToUpper('t') == 'T';
    assert [ToUpper('t')] + "he name." == "The name.";
  }

  /** A description that is exactly a prefix becomes empty. */
  lemma {:induction false} PrefixAloneBecomesEmpty(k: nat)
    requires k < |StandardPropertyPrefixes|
    ensures StripStandardWording(Some(StandardPropertyPrefixes[k])) == Some("")
  {
    var text := StandardPropertyPrefixes[k];
    assert text[..|text|] == text;
    assert StartsWithIgnoreCase(text, text);
    if k == 0 {
      MatchingPrefixRemoved(text, 0);
    } else if k == 1 {
      assert !StartsWithIgnoreCase(text, StandardPropertyPrefixes[0]);
      MatchingPrefixRemoved(text, 1);
    } else {
      assert !StartsWithIgnoreCase(text, StandardPropertyPrefixes[0]);
      assert !StartsWithIgnoreCase(text, StandardPropertyPrefixes[1]) by {
        assert !CharEqualsIgnoreCase(text[0], StandardPropertyPrefixes[1][0]);
      }
      MatchingPrefixRemoved(text, 2);
    }
  }
}
