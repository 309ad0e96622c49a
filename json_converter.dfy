/**
 * The dictionary converter that skips the key naming policy: it reads a
 * JSON object from a token stream into a string-keyed dictionary, keeping
 * each property name verbatim, and writes a dictionary back as tokens.
 *
 * Values are abstracted to single scalar tokens. A dictionary is the
 * sequence of its entries in insertion (and enumeration) order.
 */
module JsonConverter {
  import opened Wrappers

  datatype JsonScalar = JString(s: string) | JNumber(n: int) | JTrue | JFalse | JNull

  datatype JsonToken =
    | StartObject
    | EndObject
    | StartArray
    | EndArray
    | PropertyName(name: string)
    | Scalar(value: JsonScalar)

  /** What the converter needs to know of the dictionary's value type. */
  datatype ValueType = ValueType(name: string, isValueType: bool, hasNullableUnderlying: bool)

  datatype Entry = Entry(key: string, value: JsonScalar)

  datatype ReadError =
    | Malformed                       // a bare `JsonException`
    | UnexpectedNull(typeName: string) // "Unexpected null value for non-nullable type '<typeName>'."
    | DuplicateKey(key: string)       // `Dictionary.Add` of a key already present

  datatype ReadOutcome =
    | NullDictionary
    | Dictionary(entries: seq<Entry>)
    | Thrown(error: ReadError)

  /** Reference types and `Nullable<T>` admit null; other value types do not. */
  predicate IsNullable(t: ValueType) {
    !t.isValueType || t.hasNullableUnderlying
  }

  function Keys(entries: seq<Entry>): (ks: set<string>)
    ensures forall e :: e in entries ==> e.key in ks
    ensures forall k :: k in ks ==> exists e :: e in entries && e.key == k
  {
    set e | e in entries :: e.key
  }

  ghost predicate DistinctKeys(entries: seq<Entry>) {
    forall i, j :: 0 <= i < j < |entries| ==> entries[i].key != entries[j].key
  }

  /** Every null value is admitted by the value type. */
  ghost predicate NullsAdmitted(entries: seq<Entry>, t: ValueType) {
    forall e :: e in entries ==> e.value == JNull ==> IsNullable(t)
  }

  /**
   * The reading loop from token `i` on, with `acc` read so far: the reader
   * has just advanced onto `tokens[i]`, if there is one.
   */
  function ReadFrom(tokens: seq<JsonToken>, i: nat, acc: seq<Entry>, t: ValueType): ReadOutcome
    decreases |tokens| - i
  {
    if i >= |tokens| then Thrown(Malformed)
    else match tokens[i]
      case EndObject => Dictionary(acc)
      case PropertyName(key) =>
        if i + 1 >= |tokens| || !tokens[i + 1].Scalar? then Thrown(Malformed)
        else if tokens[i + 1].value == JNull && !IsNullable(t) then Thrown(UnexpectedNull(t.name))
        else if key in Keys(acc) then Thrown(DuplicateKey(key))
        else ReadFrom(tokens, i + 2, acc + [Entry(key, tokens[i + 1].value)], t)
      case _ => Thrown(Malformed)
  }

  /** The converter's reading, from the token the reader stands on. */
  function ReadTokens(tokens: seq<JsonToken>, t: ValueType): ReadOutcome
    requires |tokens| > 0
  {
    if tokens[0] == Scalar(JNull) then NullDictionary
    else if tokens[0] != StartObject then Thrown(Malformed)
    else ReadFrom(tokens, 1, [], t)
  }

  /** The tokens of the entries: each key, verbatim, followed by its value. */
  function EntryTokens(entries: seq<Entry>): (ts: seq<JsonToken>)
    ensures |ts| == 2 * |entries|
    ensures forall i :: 0 <= i < |entries| ==>
      ts[2 * i] == PropertyName(entries[i].key) && ts[2 * i + 1] == Scalar(entries[i].value)
  {
    if entries == [] then []
    else [PropertyName(entries[0].key), Scalar(entries[0].value)] + EntryTokens(entries[1..])
  }

  /** The converter's writing: an object holding the entries in order. */
  function WriteTokens(entries: seq<Entry>): (ts: seq<JsonToken>)
    ensures |ts| == 2 * |entries| + 2
    ensures ts[0] == StartObject && ts[|ts| - 1] == EndObject
  {
    [StartObject] + EntryTokens(entries) + [EndObject]
  }

  /** The `while (reader.Read())` loop, with its early returns. */
  method Read(tokens: seq<JsonToken>, t: ValueType) returns (r: ReadOutcome)
    requires |tokens| > 0
    ensures r == ReadTokens(tokens, t)
  {
    if tokens[0] == Scalar(JNull) {
      return NullDictionary;
    }
    if tokens[0] != StartObject {
      return Thrown(Malformed);
    }
    var dictionary: seq<Entry> := [];
    var pos := 0;
    while pos + 1 < |tokens|
      invariant 0 <= pos < |tokens|
      invariant ReadFrom(tokens, pos + 1, dictionary, t) == ReadTokens(tokens, t)
      decreases |tokens| - pos
    {
      pos := pos + 1;
      if tokens[pos] == EndObject {
        return Dictionary(dictionary);
      }
      if !tokens[pos].PropertyName? {
        return Thrown(Malformed);
      }
      var key := tokens[pos].name;
      if pos + 1 >= |tokens| || !tokens[pos + 1].Scalar? {
        return Thrown(Malformed);
      }
      pos := pos + 1;
      var value := tokens[pos].value;
      if value == JNull && !IsNullable(t) {
        return Thrown(UnexpectedNull(t.name));
      }
      if key in Keys(dictionary) {
        return Thrown(DuplicateKey(key));
      }
      dictionary := dictionary + [Entry(key, value)];
    }
    return Thrown(Malformed);
  }

  /** Emits the start, each key and value, then the end. */
  method Write(dictionary: seq<Entry>) returns (tokens: seq<JsonToken>)
    ensures tokens == WriteTokens(dictionary)
  {
    tokens := [StartObject];
    for i := 0 to |dictionary|
      invariant tokens == [StartObject] + EntryTokens(dictionary[..i])
    {
      EntryTokensAppend(dictionary[..i], dictionary[i]);
      assert dictionary[..i + 1] == dictionary[..i] + [dictionary[i]];
      tokens := tokens + [PropertyName(dictionary[i].key), Scalar(dictionary[i].value)];
    }
    assert dictionary[..|dictionary|] == dictionary;
    tokens := tokens + [EndObject];
  }

  lemma {:induction false} EntryTokensAppend(entries: seq<Entry>, e: Entry)
    ensures EntryTokens(entries + [e]) == EntryTokens(entries) + [PropertyName(e.key), Scalar(e.value)]
  {
    if entries != [] {
      assert (entries + [e])[1..] == entries[1..] + [e];
      EntryTokensAppend(entries[1..], e);
    }
  }

  // --- Properties of reading ---

  /** A leading null token reads as a null dictionary. */
  lemma ReadNull(rest: seq<JsonToken>, t: ValueType)
    ensures ReadTokens([Scalar(JNull)] + rest, t) == NullDictionary
  {
  }

  /** A leading token that is neither null nor the start of an object is an error. */
  lemma ReadRejectsNonObject(tokens: seq<JsonToken>, t: ValueType)
    requires |tokens| > 0 && tokens[0] != Scalar(JNull) && tokens[0] != StartObject
    ensures ReadTokens(tokens, t) == Thrown(Malformed)
  {
  }

  /** `{}` reads as an empty dictionary, whatever follows it. */
  lemma ReadEmptyObject(rest: seq<JsonToken>, t: ValueType)
    ensures ReadTokens([StartObject, EndObject] + rest, t) == Dictionary([])
  {
  }

  /** A key position holding anything but a property name or the end is an error. */
  lemma ReadRejectsNonKey(tokens: seq<JsonToken>, i: nat, acc: seq<Entry>, t: ValueType)
    requires i < |tokens| && !tokens[i].PropertyName? && tokens[i] != EndObject
    ensures ReadFrom(tokens, i, acc, t) == Thrown(Malformed)
  {
  }

  /** A single null value is accepted exactly when the value type is nullable. */
  lemma ReadNullValue(key: string, t: ValueType)
    ensures ReadTokens([StartObject, PropertyName(key), Scalar(JNull), EndObject], t) ==
      if IsNullable(t) then Dictionary([Entry(key, JNull)]) else Thrown(UnexpectedNull(t.name))
  {
    var tokens := [StartObject, PropertyName(key), Scalar(JNull), EndObject];
    assert Keys([]) == {};
    if IsNullable(t) {
      assert [] + [Entry(key, JNull)] == [Entry(key, JNull)];
      assert ReadFrom(tokens, 1, [], t) == ReadFrom(tokens, 3, [Entry(key, JNull)], t);
    }
  }

  /** A repeated key fails as `Dictionary.Add` does. */
  lemma ReadDuplicateKey(key: string, v: JsonScalar, w: JsonScalar, t: ValueType)
    requires v != JNull && w != JNull
    ensures ReadTokens([StartObject, PropertyName(key), Scalar(v), PropertyName(key), Scalar(w), EndObject], t)
      == Thrown(DuplicateKey(key))
  {
    var tokens := [StartObject, PropertyName(key), Scalar(v), PropertyName(key), Scalar(w), EndObject];
    assert Keys([]) == {};
    assert [] + [Entry(key, v)] == [Entry(key, v)];
    assert ReadFrom(tokens, 1, [], t) == ReadFrom(tokens, 3, [Entry(key, v)], t);
    assert key in Keys([Entry(key, v)]);
    assert ReadFrom(tokens, 3, [Entry(key, v)], t) == Thrown(DuplicateKey(key));
  }

  /** The entry tokens of `rest`, read after `acc`, add `rest` with keys unchanged. */
  lemma {:induction false} ReadEntryTokens(acc: seq<Entry>, rest: seq<Entry>, tail: seq<JsonToken>,
                                           prefix: seq<JsonToken>, t: ValueType)
    requires DistinctKeys(acc + rest) && NullsAdmitted(rest, t)
    ensures ReadFrom(prefix + EntryTokens(rest) + [EndObject] + tail, |prefix|, acc, t) == Dictionary(acc + rest)
    decreases |rest|
  {
    var tokens := prefix + EntryTokens(rest) + [EndObject] + tail;
    if rest == [] {
      assert tokens[|prefix|] == EndObject;
      assert acc + rest == acc;
    } else {
      var e := rest[0];
      assert tokens[|prefix|] == PropertyName(e.key);
      assert tokens[|prefix| + 1] == Scalar(e.value);
      assert e.key !in Keys(acc) by {
        forall a | a in acc ensures a.key != e.key {
          var i :| 0 <= i < |acc| && acc[i] == a;
          assert (acc + rest)[i] == a && (acc + rest)[|acc|] == e;
        }
      }
      assert e in rest;
      var prefix' := prefix + [PropertyName(e.key), Scalar(e.value)];
      assert EntryTokens(rest) == [PropertyName(e.key), Scalar(e.value)] + EntryTokens(rest[1..]);
      assert tokens == prefix' + EntryTokens(rest[1..]) + [EndObject] + tail;
      assert (acc + [e]) + rest[1..] == acc + rest;
      assert NullsAdmitted(rest[1..], t) by {
        forall x | x in rest[1..] ensures x.value == JNull ==> IsNullable(t) {
          assert x in rest;
        }
      }
      ReadEntryTokens(acc + [e], rest[1..], tail, prefix', t);
    }
  }

  /**
   * Round trip: reading what `Write` emits gives back the same entries,
   * keys verbatim and in order, whatever tokens follow.
   */
  lemma ReadWrite(entries: seq<Entry>, tail: seq<JsonToken>, t: ValueType)
    requires DistinctKeys(entries) && NullsAdmitted(entries, t)
    ensures ReadTokens(WriteTokens(entries) + tail, t) == Dictionary(entries)
  {
    assert [] + entries == entries;
    ReadEntryTokens([], entries, tail, [StartObject], t);
    assert WriteTokens(entries) + tail == [StartObject] + EntryTokens(entries) + [EndObject] + tail;
  }

  /** Tokens that stop before the closing token are an error. */
  lemma {:induction false} ReadFromTruncated(acc: seq<Entry>, rest: seq<Entry>, prefix: seq<JsonToken>, t: ValueType)
    ensures ReadFrom(prefix + EntryTokens(rest), |prefix|, acc, t).Thrown?
    decreases |rest|
  {
    var tokens := prefix + EntryTokens(rest);
    if rest != [] {
      var e := rest[0];
      assert tokens[|prefix|] == PropertyName(e.key);
      assert tokens[|prefix| + 1] == Scalar(e.value);
      var prefix' := prefix + [PropertyName(e.key), Scalar(e.value)];
      assert EntryTokens(rest) == [PropertyName(e.key), Scalar(e.value)] + EntryTokens(rest[1..]);
      assert tokens == prefix' + EntryTokens(rest[1..]);
      ReadFromTruncated(acc + [e], rest[1..], prefix', t);
    }
  }

  lemma ReadUnterminated(entries: seq<Entry>, t: ValueType)
    ensures ReadTokens([StartObject] + EntryTokens(entries), t).Thrown?
  {
    ReadFromTruncated([], entries, [StartObject], t);
  }

  /** Whatever reads successfully has distinct keys whose nulls the value type admits. */
  lemma {:induction false} ReadFromWellFormed(tokens: seq<JsonToken>, i: nat, acc: seq<Entry>, t: ValueType)
    requires DistinctKeys(acc) && NullsAdmitted(acc, t)
    requires ReadFrom(tokens, i, acc, t).Dictionary?
    ensures DistinctKeys(ReadFrom(tokens, i, acc, t).entries)
    ensures NullsAdmitted(ReadFrom(tokens, i, acc, t).entries, t)
    decreases |tokens| - i
  {
    if tokens[i].PropertyName? {
      var e := Entry(tokens[i].name, tokens[i + 1].value);
      var acc' := acc + [e];
      assert DistinctKeys(acc') by {
        forall a, b | 0 <= a < b < |acc'| ensures acc'[a].key != acc'[b].key {
          if b == |acc| {
            assert acc'[a] in acc;
          }
        }
      }
      ReadFromWellFormed(tokens, i + 2, acc', t);
    }
  }

  /** A successful read extends what was read before. */
  lemma {:induction false} ReadFromExtends(tokens: seq<JsonToken>, i: nat, acc: seq<Entry>, t: ValueType)
    requires ReadFrom(tokens, i, acc, t).Dictionary?
    ensures |acc| <= |ReadFrom(tokens, i, acc, t).entries|
    ensures ReadFrom(tokens, i, acc, t).entries[..|acc|] == acc
    decreases |tokens| - i
  {
    if tokens[i] != EndObject {
      var e := Entry(tokens[i].name, tokens[i + 1].value);
      ReadFromExtends(tokens, i + 2, acc + [e], t);
      var d := ReadFrom(tokens, i, acc, t).entries;
      assert d[..|acc|] == d[..|acc| + 1][..|acc|];
    }
  }

  /**
   * A successful read consumed tokens `i` to `i + 2n`: the n new entries,
   * each as its key and value, then the closing token.
   */
  lemma {:induction false} ReadFromConsumes(tokens: seq<JsonToken>, i: nat, acc: seq<Entry>, t: ValueType)
    requires ReadFrom(tokens, i, acc, t).Dictionary?
    ensures var d := ReadFrom(tokens, i, acc, t).entries;
      |acc| <= |d| && i + 2 * (|d| - |acc|) < |tokens| &&
      tokens[i + 2 * (|d| - |acc|)] == EndObject &&
      forall k :: 0 <= k < |d| - |acc| ==>
        tokens[i + 2 * k] == PropertyName(d[|acc| + k].key) &&
        tokens[i + 2 * k + 1] == Scalar(d[|acc| + k].value)
    decreases |tokens| - i
  {
    ReadFromExtends(tokens, i, acc, t);
    if tokens[i] != EndObject {
      var e := Entry(tokens[i].name, tokens[i + 1].value);
      ReadFromConsumes(tokens, i + 2, acc + [e], t);
      ReadFromExtends(tokens, i + 2, acc + [e], t);
      var d := ReadFrom(tokens, i, acc, t).entries;
      assert d[|acc|] == (acc + [e])[|acc|];
      forall k | 0 <= k < |d| - |acc|
        ensures tokens[i + 2 * k] == PropertyName(d[|acc| + k].key)
        ensures tokens[i + 2 * k + 1] == Scalar(d[|acc| + k].value)
      {
        if k > 0 {
          assert i + 2 * k == (i + 2) + 2 * (k - 1);
          assert |acc| + k == |acc + [e]| + (k - 1);
        }
      }
    }
  }

  /**
   * Read then write: a successful read has distinct keys, admitted nulls,
   * and consumed exactly the tokens that writing its entries emits.
   */
  lemma WriteRead(tokens: seq<JsonToken>, t: ValueType)
    requires |tokens| > 0 && ReadTokens(tokens, t).Dictionary?
    ensures var d := ReadTokens(tokens, t).entries;
      DistinctKeys(d) && NullsAdmitted(d, t) &&
      |WriteTokens(d)| <= |tokens| && tokens[..|WriteTokens(d)|] == WriteTokens(d)
  {
    assert tokens[0] == StartObject;
    assert ReadTokens(tokens, t) == ReadFrom(tokens, 1, [], t);
    var d := ReadFrom(tokens, 1, [], t).entries;
    ReadFromWellFormed(tokens, 1, [], t);
    ReadFromConsumes(tokens, 1, [], t);
    var n := |d|;
    assert 1 + 2 * (n - 0) < |tokens| && tokens[1 + 2 * (n - 0)] == EndObject;
    var ts := tokens[1..1 + 2 * n];
    forall j | 0 <= j < n
      ensures ts[2 * j] == PropertyName(d[j].key) && ts[2 * j + 1] == Scalar(d[j].value)
    {
      assert ts[2 * j] == tokens[1 + 2 * j] && ts[2 * j + 1] == tokens[1 + 2 * j + 1];
    }
    EntryTokensPointwise(d, ts);
    FramedSlice(tokens, 2 * n + 2);
    assert WriteTokens(d) == [StartObject] + ts + [EndObject];
  }

  lemma FramedSlice<T>(s: seq<T>, m: nat)
    requires 2 <= m <= |s|
    ensures s[..m] == [s[0]] + s[1..m - 1] + [s[m - 1]]
  {
  }

  /** A sequence with each key then its value in turn is the entries' tokens. */
  lemma {:induction false} EntryTokensPointwise(entries: seq<Entry>, ts: seq<JsonToken>)
    requires |ts| == 2 * |entries|
    requires forall j :: 0 <= j < |entries| ==>
      ts[2 * j] == PropertyName(entries[j].key) && ts[2 * j + 1] == Scalar(entries[j].value)
    ensures ts == EntryTokens(entries)
  {
    if entries != [] {
      var rest := entries[1..];
      var ts' := ts[2..];
      forall j | 0 <= j < |rest|
        ensures ts'[2 * j] == PropertyName(rest[j].key) && ts'[2 * j + 1] == Scalar(rest[j].value)
      {
        assert ts'[2 * j] == ts[2 * (j + 1)] && ts'[2 * j + 1] == ts[2 * (j + 1) + 1];
      }
      EntryTokensPointwise(rest, ts');
      assert ts == [ts[0], ts[1]] + ts';
    }
  }
}
