/**
 * The validation attribute that requires every string key of a dictionary
 * to match a regular expression. The expression is fixed when the
 * attribute is built; the model takes its matcher as a predicate and its
 * text as a string.
 */
module KeyValidation {
  import opened Wrappers

  /** A dictionary key: a string, or a key of some other type. */
  datatype Key = StringKey(s: string) | OtherKey

  /** The value the attribute is asked to validate. */
  datatype Value = NullValue | NotADictionary | DictionaryValue(keys: seq<Key>)

  datatype ValidationResult =
    | Success
    | Failure(errorMessage: string, memberNames: seq<string>)

  datatype Outcome =
    | Returned(result: ValidationResult)
    | Threw(message: string)   // `InvalidOperationException`

  const NotADictionaryMessage := "Value is not a dictionary"

  /** The attribute's error message, formatted with the key and the pattern. */
  function InvalidKeyMessage(key: string, pattern: string): string {
    "Value '" + key + "' is an invalid key. The key must match the regular expression '" + pattern + "'."
  }

  /** The first string key, in enumeration order, that the expression rejects. */
  function FirstInvalidKey(keys: seq<Key>, isMatch: string -> bool): (r: Option<nat>)
    ensures r.Some? ==> r.value < |keys| && keys[r.value].StringKey? && !isMatch(keys[r.value].s)
    ensures r.Some? ==> forall j :: 0 <= j < r.value && keys[j].StringKey? ==> isMatch(keys[j].s)
    ensures r.None? ==> forall j :: 0 <= j < |keys| && keys[j].StringKey? ==> isMatch(keys[j].s)
  {
    if keys == [] then None
    else if keys[0].StringKey? && !isMatch(keys[0].s) then Some(0)
    else match FirstInvalidKey(keys[1..], isMatch)
      case None => None
      case Some(i) => Some(i + 1)
  }

  /** The outcome the attribute's `IsValid` has for `value`. */
  function Validate(value: Value, isMatch: string -> bool, pattern: string, memberName: string): Outcome {
    match value
    case NullValue => Returned(Success)
    case NotADictionary => Threw(NotADictionaryMessage)
    case DictionaryValue(keys) =>
      match FirstInvalidKey(keys, isMatch)
      case None => Returned(Success)
      case Some(i) => Returned(Failure(InvalidKeyMessage(keys[i].s, pattern), [memberName]))
  }

  /** The `foreach` with its early return, proved equal to `Validate`. */
  method IsValid(value: Value, isMatch: string -> bool, pattern: string, memberName: string)
    returns (r: Outcome)
    ensures r == Validate(value, isMatch, pattern, memberName)
  {
    if value.NullValue? {
      return Returned(Success);
    }
    if value.NotADictionary? {
      return Threw(NotADictionaryMessage);
    }
    var keys := value.keys;
    var i := 0;
    while i < |keys|
      invariant 0 <= i <= |keys|
      invariant forall j :: 0 <= j < i && keys[j].StringKey? ==> isMatch(keys[j].s)
    {
      if keys[i].StringKey? && !isMatch(keys[i].s) {
        FirstInvalidKeyAt(keys, isMatch, i);
        return Returned(Failure(InvalidKeyMessage(keys[i].s, pattern), [memberName]));
      }
      i := i + 1;
    }
    NoInvalidKey(keys, isMatch);
    return Returned(Success);
  }

  /** The first rejected key is found at the first index where a string key fails. */
  lemma {:induction false} FirstInvalidKeyAt(keys: seq<Key>, isMatch: string -> bool, i: nat)
    requires i < |keys| && keys[i].StringKey? && !isMatch(keys[i].s)
    requires forall j :: 0 <= j < i && keys[j].StringKey? ==> isMatch(keys[j].s)
    ensures FirstInvalidKey(keys, isMatch) == Some(i)
  {
    if i > 0 {
      FirstInvalidKeyAt(keys[1..], isMatch, i - 1);
    }
  }

  lemma {:induction false} NoInvalidKey(keys: seq<Key>, isMatch: string -> bool)
    requires forall j :: 0 <= j < |keys| && keys[j].StringKey? ==> isMatch(keys[j].s)
    ensures FirstInvalidKey(keys, isMatch) == None
  {
    if keys != [] {
      NoInvalidKey(keys[1..], isMatch);
    }
  }

  /** Null is valid and a non-dictionary throws, whatever the expression. */
  lemma NullAndNonDictionary(isMatch: string -> bool, pattern: string, memberName: string)
    ensures Validate(NullValue, isMatch, pattern, memberName) == Returned(Success)
    ensures Validate(NotADictionary, isMatch, pattern, memberName) == Threw("Value is not a dictionary")
  {
  }

  /** The result is a success exactly when every string key matches; other keys are ignored. */
  lemma SuccessIffAllStringKeysMatch(keys: seq<Key>, isMatch: string -> bool, pattern: string, memberName: string)
    ensures Validate(DictionaryValue(keys), isMatch, pattern, memberName) == Returned(Success)
      <==> forall j :: 0 <= j < |keys| && keys[j].StringKey? ==> isMatch(keys[j].s)
  {
  }

  /** A failure names the first failing key and the pattern, and carries the member name. */
  lemma FailureNamesFirstFailingKey(keys: seq<Key>, isMatch: string -> bool, pattern: string,
                                    memberName: string, i: nat)
    requires i < |keys| && keys[i].StringKey? && !isMatch(keys[i].s)
    requires forall j :: 0 <= j < i && keys[j].StringKey? ==> isMatch(keys[j].s)
    ensures Validate(DictionaryValue(keys), isMatch, pattern, memberName) ==
      Returned(Failure(InvalidKeyMessage(keys[i].s, pattern), [memberName]))
  {
    FirstInvalidKeyAt(keys, isMatch, i);
  }
}
